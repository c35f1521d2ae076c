/**
 * `RunningInfo`, the value both ends exchange: an id, a start time, an optional stop
 * time, and the cancellation source, which is never serialized.
 */
module Records {
  import opened Wrappers
  import opened Numbers

  /** Timestamps are abstract instants. */
  type Time = nat

  /**
   * A value type: copies are independent, so a changed copy affects a table entry only
   * once it is written back. `CancelRequested` stands for the state of the entry's
   * `CancellationTokenSource`.
   */
  datatype RunningInfo = RunningInfo(Id: uint32, StartTime: Time, StopTime: Option<Time>, CancelRequested: bool)

  /** The constructor: the given id and start time, no stop time, a fresh (uncancelled) source. */
  function Create(id: uint32, startTime: Time): (r: RunningInfo)
    ensures r.Id == id && r.StartTime == startTime
    ensures r.StopTime == None && !r.CancelRequested
  {
    RunningInfo(id, startTime, None, false)
  }

  /** A timestamp value: a quoted decimal number, standing in for the library's date format. */
  function TimeText(t: Time): string
  {
    "\"" + (Dec(t) + "\"")
  }

  function StopText(stop: Option<Time>): string
  {
    match stop
    case None => "null"
    case Some(t) => TimeText(t)
  }

  /**
   * The serialized object form `{"Id":…,"StartTime":…,"StopTime":…}`; the cancellation
   * source is left out.
   */
  function Ser(info: RunningInfo): (s: string)
    ensures |s| > 0 && '<' !in s
  {
    "{\"Id\":" + (Dec(info.Id as nat) + StartPart(info))
  }

  function StartPart(info: RunningInfo): string
  {
    ",\"StartTime\":\"" + (Dec(info.StartTime) + StopPart(info))
  }

  function StopPart(info: RunningInfo): string
  {
    "\",\"StopTime\":" + (StopText(info.StopTime) + "}")
  }

  /** The cancellation source is not part of the serialized form. */
  lemma SerIgnoresSource(info: RunningInfo, cancelled: bool)
    ensures Ser(info.(CancelRequested := cancelled)) == Ser(info)
  {
  }

  /** A common prefix can be dropped from both sides of an equation. */
  lemma DropPrefix(k: string, x: string, y: string)
    requires k + x == k + y
    ensures x == y
  {
    assert x == (k + x)[|k|..];
    assert y == (k + y)[|k|..];
  }

  /** The serialized form determines Id, StartTime and StopTime. */
  lemma {:induction false} SerInjective(a: RunningInfo, b: RunningInfo)
    requires Ser(a) == Ser(b)
    ensures a.Id == b.Id && a.StartTime == b.StartTime && a.StopTime == b.StopTime
  {
    DropPrefix("{\"Id\":", Dec(a.Id as nat) + StartPart(a), Dec(b.Id as nat) + StartPart(b));
    DecPrefix(a.Id as nat, b.Id as nat, StartPart(a), StartPart(b));
    DropPrefix(",\"StartTime\":\"", Dec(a.StartTime) + StopPart(a), Dec(b.StartTime) + StopPart(b));
    DecPrefix(a.StartTime, b.StartTime, StopPart(a), StopPart(b));
    DropPrefix("\",\"StopTime\":", StopText(a.StopTime) + "}", StopText(b.StopTime) + "}");
    StopTextInjective(a.StopTime, b.StopTime);
  }

  lemma StopTextInjective(x: Option<Time>, y: Option<Time>)
    requires StopText(x) + "}" == StopText(y) + "}"
    ensures x == y
  {
    var sx, sy := StopText(x) + "}", StopText(y) + "}";
    assert sx[0] == StopText(x)[0] && sy[0] == StopText(y)[0];
    if x.Some? && y.Some? {
      var close := "\"}";
      assert sx == "\"" + (Dec(x.value) + close);
      assert sy == "\"" + (Dec(y.value) + close);
      DropPrefix("\"", Dec(x.value) + close, Dec(y.value) + close);
      DecPrefix(x.value, y.value, close, close);
    }
  }
}
