/**
 * The wire format shared by the daemon and its client: fields joined by `<|s|>`,
 * a message closed by `<|EOM|>`, and the read loop that accumulates received text
 * until the closing token has arrived.
 */
module Framing {
  import opened Wrappers
  import opened Text

  /** The field separator. */
  const Sep: string := "<|s|>"

  /** The end-of-message sentinel. */
  const Eom: string := "<|EOM|>"

  /** The token's first character occurs nowhere else in it, so two occurrences cannot overlap. */
  predicate Unbordered(t: string)
  {
    |t| > 0 && forall k :: 1 <= k < |t| ==> t[k] != t[0]
  }

  lemma TokensUnbordered()
    ensures Unbordered(Sep) && Unbordered(Eom)
  {
  }

  // ---------------------------------------------------------------- fields

  /** The fields glued together with the separator between consecutive ones. */
  function Join(fields: seq<string>): string
    requires |fields| >= 1
  {
    if |fields| == 1 then fields[0] else fields[0] + Sep + Join(fields[1..])
  }

  /** `String.Split("<|s|>")`: the pieces between separators, empty pieces kept. */
  function Split(s: string): (r: seq<string>)
    ensures |r| >= 1
    ensures forall k :: 0 <= k < |r| ==> !Contains(r[k], Sep)
    ensures Join(r) == s
    decreases |s|
  {
    match IndexOf(s, Sep)
    case None => [s]
    case Some(i) =>
      var head, rest := s[..i], Split(s[i + |Sep|..]);
      NoneBefore(s, i, Sep);
      assert s == head + Sep + s[i + |Sep|..];
      assert ([head] + rest)[1..] == rest;
      [head] + rest
  }

  /** The text before the first occurrence of a token does not contain it. */
  lemma NoneBefore(s: string, i: nat, t: string)
    requires |t| > 0 && IndexOf(s, t) == Some(i)
    ensures !Contains(s[..i], t)
  {
    forall j | 0 <= j
      ensures !At(s[..i], j, t)
    {
      if j + |t| <= i {
        var inPrefix, inWhole := s[..i][j..j + |t|], s[j..j + |t|];
        assert forall k :: 0 <= k < |t| ==> inPrefix[k] == inWhole[k];
        assert !At(s, j, t);
      }
    }
  }

  /** No occurrence of an unbordered token starts inside a field that lacks it. */
  lemma NoEarlyOccurrence(f: string, t: string, rest: string, j: int)
    requires Unbordered(t) && !Contains(f, t) && 0 <= j < |f|
    ensures !At(f + t + rest, j, t)
  {
    var s := f + t + rest;
    if j + |t| <= |f| {
      assert s[j..j + |t|] == f[j..j + |t|];
      assert !At(f, j, t);
    } else if j + |t| <= |s| {
      var k := |f| - j;
      assert s[j..j + |t|][k] == s[|f|] == t[0];
    }
  }

  /** In `f + t + rest` the first occurrence of `t` is the one right after `f`. */
  lemma FirstOccurrence(f: string, t: string, rest: string)
    requires Unbordered(t) && !Contains(f, t)
    ensures IndexOf(f + t + rest, t) == Some(|f|)
  {
    var s := f + t + rest;
    assert s[|f|..|f| + |t|] == t;
    assert At(s, |f|, t);
    forall j | 0 <= j < |f|
      ensures !At(s, j, t)
    {
      NoEarlyOccurrence(f, t, rest, j);
    }
  }

  /** Splitting joined fields gives the fields back, when none of them holds the separator. */
  lemma {:induction false} SplitJoin(fields: seq<string>)
    requires |fields| >= 1
    requires forall k :: 0 <= k < |fields| ==> !Contains(fields[k], Sep)
    ensures Split(Join(fields)) == fields
  {
    if |fields| > 1 {
      var rest := Join(fields[1..]);
      TokensUnbordered();
      FirstOccurrence(fields[0], Sep, rest);
      var s := fields[0] + Sep + rest;
      assert s[..|fields[0]|] == fields[0];
      assert s[|fields[0]| + |Sep|..] == rest;
      SplitJoin(fields[1..]);
    }
  }

  /** Joining after one more field appends a separator and that field. */
  lemma {:induction false} JoinSnoc(fields: seq<string>, last: string)
    requires |fields| >= 1
    ensures Join(fields + [last]) == Join(fields) + Sep + last
  {
    assert (fields + [last])[1..] == fields[1..] + [last];
    if |fields| > 1 {
      JoinSnoc(fields[1..], last);
    }
  }

  /** Each segment followed by a separator, as the daemon lists records. */
  function Terminated(segments: seq<string>): string
  {
    if segments == [] then ""
    else Terminated(segments[..|segments| - 1]) + segments[|segments| - 1] + Sep
  }

  /** A terminated listing is the segments joined with one empty field after them. */
  lemma {:induction false} TerminatedJoin(segments: seq<string>)
    ensures Terminated(segments) == Join(segments + [""])
  {
    if segments != [] {
      TerminatedJoinNonEmpty(segments);
      JoinSnoc(segments, "");
    }
  }

  lemma {:induction false} TerminatedJoinNonEmpty(segments: seq<string>)
    requires segments != []
    ensures Terminated(segments) == Join(segments) + Sep
  {
    var init, last := segments[..|segments| - 1], segments[|segments| - 1];
    assert segments == init + [last];
    assert Terminated(segments) == Terminated(init) + last + Sep;
    if init == [] {
      assert Join(segments) == last;
    } else {
      TerminatedJoinNonEmpty(init);
      JoinSnoc(init, last);
      assert Terminated(segments) == Join(init) + Sep + last + Sep;
    }
  }

  /** Splitting a listing gives its segments and one empty trailing piece. */
  lemma SplitTerminated(segments: seq<string>)
    requires forall k :: 0 <= k < |segments| ==> !Contains(segments[k], Sep)
    ensures Split(Terminated(segments)) == segments + [""]
  {
    TerminatedJoin(segments);
    SplitJoin(segments + [""]);
  }

  // ---------------------------------------------------------------- sentinel

  /** Every '<' in `s` is followed by "|s", so `s` cannot hold "<|E" and hence not the sentinel. */
  predicate Guarded(s: string)
  {
    forall i :: 0 <= i < |s| && s[i] == '<' ==> i + 2 < |s| && s[i + 2] == 's'
  }

  lemma GuardedConcat(a: string, b: string)
    requires Guarded(a) && Guarded(b)
    ensures Guarded(a + b)
  {
    forall i | 0 <= i < |a + b| && (a + b)[i] == '<'
      ensures i + 2 < |a + b| && (a + b)[i + 2] == 's'
    {
      if i >= |a| {
        assert (a + b)[i] == b[i - |a|];
      }
    }
  }

  lemma GuardedHasNoSentinel(s: string)
    requires Guarded(s)
    ensures !Contains(s, Eom)
  {
    forall j
      ensures !At(s, j, Eom)
    {
      if 0 <= j && j + |Eom| <= |s| {
        var w := s[j..j + |Eom|];
        assert w[0] == s[j] && w[2] == s[j + 2];
      }
    }
  }

  /** A listing of segments without '<' never holds the sentinel. */
  lemma {:induction false} TerminatedGuarded(segments: seq<string>)
    requires forall k :: 0 <= k < |segments| ==> '<' !in segments[k]
    ensures Guarded(Terminated(segments))
  {
    if segments != [] {
      var init, last := segments[..|segments| - 1], segments[|segments| - 1];
      TerminatedGuarded(init);
      GuardedConcat(Terminated(init), last);
      GuardedConcat(Terminated(init) + last, Sep);
    }
  }

  /** The text received so far: the chunks in order. */
  function Concat(chunks: seq<string>): string
  {
    if chunks == [] then "" else Concat(chunks[..|chunks| - 1]) + chunks[|chunks| - 1]
  }

  lemma {:induction false} ConcatSplit(chunks: seq<string>, j: nat)
    requires j <= |chunks|
    ensures Concat(chunks) == Concat(chunks[..j]) + Concat(chunks[j..])
    decreases |chunks|
  {
    if j < |chunks| {
      var init := chunks[..|chunks| - 1];
      ConcatSplit(init, j);
      assert init[..j] == chunks[..j];
      assert chunks[j..][..|chunks[j..]| - 1] == init[j..];
    } else {
      assert chunks[..j] == chunks;
    }
  }

  /** The `j`-th read is the first after which the accumulated text holds the sentinel. */
  predicate CompletesAt(chunks: seq<string>, j: int)
  {
    && 1 <= j <= |chunks|
    && Contains(Concat(chunks[..j]), Eom)
    && forall i :: 1 <= i < j ==> !Contains(Concat(chunks[..i]), Eom)
  }

  /**
   * The read loop of both ends: read once, then keep reading while the accumulated
   * text lacks the sentinel. `chunks` is what the successive reads deliver; when they
   * run out first, the loop in `Worker.ExecuteAsync` or `Program.Connect` never ends, and the result is None.
   */
  method Receive(chunks: seq<string>) returns (text: Option<string>, used: nat)
    ensures text.Some? <==> Contains(Concat(chunks), Eom)
    ensures text.Some? ==> CompletesAt(chunks, used) && text.value == Concat(chunks[..used])
    ensures text.None? ==> used == |chunks|
  {
    if |chunks| == 0 {
      return None, 0;
    }
    assert chunks[..1] == [chunks[0]];
    var message := chunks[0];
    used := 1;
    while !Contains(message, Eom)
      invariant 1 <= used <= |chunks|
      invariant message == Concat(chunks[..used])
      invariant forall i :: 1 <= i < used ==> !Contains(Concat(chunks[..i]), Eom)
      decreases |chunks| - used
    {
      if used == |chunks| {
        assert chunks[..used] == chunks;
        return None, used;
      }
      assert chunks[..used + 1][..used] == chunks[..used];
      message := message + chunks[used];
      used := used + 1;
    }
    ConcatSplit(chunks, used);
    ContainsExtend(message, Concat(chunks[used..]), Eom);
    text := Some(message);
  }

  /** `message[..^7]`: the accumulated text without its last seven characters. */
  function Strip(text: string): (r: string)
    requires |text| >= |Eom|
    ensures |r| + |Eom| == |text| && r <= text
  {
    text[..|text| - |Eom|]
  }

  /** A text holding the sentinel is long enough to strip. */
  lemma ContainsLength(text: string)
    requires Contains(text, Eom)
    ensures |text| >= |Eom|
  {
  }

  /**
   * Whatever chunks a framed message `m + <|EOM|>` arrives in, any read after which the
   * sentinel has been seen has delivered exactly the whole frame, so stripping gives `m`.
   */
  lemma {:induction false} FramedMessage(m: string, chunks: seq<string>, j: nat)
    requires !Contains(m, Eom) && Concat(chunks) == m + Eom
    requires j <= |chunks| && Contains(Concat(chunks[..j]), Eom)
    ensures Concat(chunks[..j]) == m + Eom
    ensures Strip(Concat(chunks[..j])) == m
  {
    var p := Concat(chunks[..j]);
    ConcatSplit(chunks, j);
    var i := IndexOf(p, Eom).value;
    assert (m + Eom)[i..i + |Eom|] == p[i..i + |Eom|];
    assert At(m + Eom + "", i, Eom);
    TokensUnbordered();
    if i < |m| {
      NoEarlyOccurrence(m, Eom, "", i);
      assert false;
    }
    assert p == (m + Eom)[..|p|];
  }
}
