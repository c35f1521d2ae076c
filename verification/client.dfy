/**
 * The command-line client: the request each verb sends, the send-and-read exchange,
 * and how the stripped response is read for each verb.
 */
module Client {
  import opened Wrappers
  import opened Text
  import opened Numbers
  import opened Framing
  import opened Records
  import Service

  /** The three verbs, sent as command codes 1, 2 and 3. */
  datatype Verb = LaunchVerb | CloseVerb | FetchVerb

  /** What the client makes of a response. */
  datatype Reply =
    | Launched(record: string)        // one record, handed to the deserializer
    | Cancelled(record: string)       // one record, handed to the deserializer
    | NotIdentified                   // empty response to a cancel: unknown or unreadable id
    | Listed(records: seq<string>)    // one piece per record, each handed to the deserializer

  /** The fields of a launch request: code, executable, working directory, then the arguments. */
  function LaunchFields(executable: string, workingDirectory: string, arguments: Option<seq<string>>): seq<string>
  {
    ["1", executable, workingDirectory] + match arguments { case Some(args) => args case None => [""] }
  }

  /**
   * The launch request as the client builds it: the working directory defaults to the
   * current one; each argument is appended after a separator; with no argument list
   * at all, a lone separator is appended.
   */
  method LaunchMessage(executable: string, workingDirectory: Option<string>, currentDirectory: string, arguments: Option<seq<string>>)
    returns (message: string)
    ensures message == Join(LaunchFields(executable, workingDirectory.GetOr(currentDirectory), arguments))
  {
    var cwd := workingDirectory.GetOr(currentDirectory);
    var head := ["1", executable, cwd];
    assert head[1..] == [executable, cwd] && head[1..][1..] == [cwd];
    assert Join([executable, cwd]) == executable + Sep + cwd;
    assert Join(head) == "1" + Sep + (executable + Sep + cwd);
    message := "1" + Sep + executable + Sep + cwd;
    match arguments {
      case Some(args) =>
        var i := 0;
        assert head + args[..0] == head;
        while i < |args|
          invariant 0 <= i <= |args|
          invariant message == Join(head + args[..i])
        {
          assert head + args[..i + 1] == (head + args[..i]) + [args[i]];
          JoinSnoc(head + args[..i], args[i]);
          message := message + Sep;
          message := message + args[i];
          i := i + 1;
        }
        assert args[..|args|] == args;
      case None =>
        JoinSnoc(head, "");
        message := message + Sep;
    }
  }

  /** The cancel request: code 2 and the id in decimal. */
  function CloseMessage(id: uint32): (message: string)
    ensures Split(message) == ["2", Dec(id as nat)]
  {
    var fields := ["2", Dec(id as nat)];
    MissingHead("2", Sep);
    MissingHead(Dec(id as nat), Sep);
    SplitJoin(fields);
    "2" + Sep + Dec(id as nat)
  }

  /** The fetch request: code 3 alone. */
  function FetchMessage(): (message: string)
    ensures Split(message) == ["3"]
  {
    MissingHead("3", Sep);
    SplitJoin(["3"]);
    "3"
  }

  /** How the stripped response is read: by emptiness for a cancel, split with the last piece dropped for a fetch. */
  function Interpret(verb: Verb, payload: string): (reply: Reply)
    ensures verb == LaunchVerb ==> reply == Launched(payload)
    ensures verb == CloseVerb ==> (reply == NotIdentified <==> payload == "")
    ensures verb == CloseVerb && payload != "" ==> reply == Cancelled(payload)
    ensures verb == FetchVerb ==> reply.Listed? && |reply.records| == |Split(payload)| - 1
    ensures verb == FetchVerb ==> Join(reply.records + [Split(payload)[|Split(payload)| - 1]]) == payload
    ensures reply.Listed? ==> forall k :: 0 <= k < |reply.records| ==> !Contains(reply.records[k], Sep)
  {
    match verb
    case LaunchVerb => Launched(payload)
    case CloseVerb => if |payload| > 0 then Cancelled(payload) else NotIdentified
    case FetchVerb =>
      var pieces := Split(payload);
      assert pieces[..|pieces| - 1] + [pieces[|pieces| - 1]] == pieces;
      Listed(pieces[..|pieces| - 1])
  }

  /**
   * Send `message` closed by the sentinel, read the response from the chunks the reads
   * deliver until it holds the sentinel, strip it and interpret it. None: the reads ran
   * out first (the loop in `Program.Connect` waits forever).
   */
  method Connect(verb: Verb, message: string, incoming: seq<string>) returns (sent: string, reply: Option<Reply>)
    ensures sent == message + Eom
    ensures reply.Some? <==> Contains(Concat(incoming), Eom)
    ensures reply.Some? ==> exists j :: CompletesAt(incoming, j) && reply.value == Interpret(verb, Strip(Concat(incoming[..j])))
  {
    sent := message + Eom;
    var response, used := Receive(incoming);
    match response {
      case None =>
        reply := None;
      case Some(text) =>
        ContainsLength(text);
        reply := Some(Interpret(verb, Strip(text)));
    }
  }

  // ---------------------------------------------------------------- round trips

  /** The daemon decodes a launch request into the executable, directory and argument list the client put in. */
  lemma {:induction false} LaunchRoundTrip(executable: string, workingDirectory: string, arguments: Option<seq<string>>)
    requires forall k :: 0 <= k < |LaunchFields(executable, workingDirectory, arguments)| ==>
      !Contains(LaunchFields(executable, workingDirectory, arguments)[k], Sep)
    ensures Service.Decode(Split(Join(LaunchFields(executable, workingDirectory, arguments))))
      == Service.Launch(executable, workingDirectory, match arguments { case Some(args) => args case None => [""] })
  {
    var fields := LaunchFields(executable, workingDirectory, arguments);
    SplitJoin(fields);
    ParseInt32Dec(1);
    assert fields[3..] == match arguments { case Some(args) => args case None => [""] };
  }

  /** The daemon decodes a cancel request into the id the client put in. */
  lemma CloseRoundTrip(id: uint32)
    ensures Service.Decode(Split(CloseMessage(id))) == Service.Cancel(id)
  {
    ParseInt32Dec(2);
    ParseUInt32Dec(id);
  }

  /** The daemon decodes a fetch request as such. */
  lemma FetchRoundTrip()
    ensures Service.Decode(Split(FetchMessage())) == Service.FetchAll
  {
    ParseInt32Dec(3);
  }

  /**
   * A fetch response carries one serialized record per table entry, each followed by the
   * separator: it never holds the sentinel, and the client gets back exactly those records, in order.
   */
  lemma {:induction false} FetchReplyRoundTrip(entries: map<uint32, RunningInfo>, keys: seq<uint32>)
    requires forall i :: 0 <= i < |keys| ==> keys[i] in entries
    ensures !Contains(Terminated(Service.Serialized(entries, keys)), Eom)
    ensures Interpret(FetchVerb, Terminated(Service.Serialized(entries, keys))) == Listed(Service.Serialized(entries, keys))
  {
    var segments := Service.Serialized(entries, keys);
    TerminatedGuarded(segments);
    GuardedHasNoSentinel(Terminated(segments));
    forall k | 0 <= k < |segments|
      ensures !Contains(segments[k], Sep)
    {
      MissingHead(segments[k], Sep);
    }
    SplitTerminated(segments);
    assert (segments + [""])[..|segments|] == segments;
  }

  /** A cancel response is either one record, which the client reads as such, or empty, read as "not identified". */
  lemma CancelReplyRoundTrip(info: RunningInfo)
    ensures !Contains(Ser(info), Eom)
    ensures Interpret(CloseVerb, Ser(info)) == Cancelled(Ser(info))
    ensures Interpret(CloseVerb, Strip(Eom)) == NotIdentified
  {
    MissingHead(Ser(info), Eom);
  }
}
