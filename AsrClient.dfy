/**
 * The recognition session of `DoubaoASRClient.recognize_file`: connect, send
 * the full request, require a first response, stream the audio packets with
 * one receive after each, and, when no transcript has arrived by the last
 * packet, drain at most five more responses. The socket is a scripted
 * transport: a queue of inbound outcomes, a queue of send outcomes and a log
 * of the frames it accepted. The JSON parser and serializer are parameters.
 */
module AsrClient {
  import opened Common
  import opened AsrFrame
  import opened AsrChunking

  /** What one `recv` on the socket produces. */
  datatype Inbound = Data(bytes: seq<byte>) | Timeout | Failure

  /** A decoded JSON response, as far as the session looks into it. */
  datatype Reply =
    | NoResult               // an object without a `result` member
    | Result(text: string)   // `result.text`, "" when the member is missing
    | MalformedResult        // `result` is not an object, so reading its text raises

  /** The terminal result of a session, before it collapses to text-or-`None`. */
  datatype Outcome = Transcript(text: string) | NoTranscript | Failed {
    function ToOption(): Option<string> {
      if Transcript? then Some(text) else None
    }
  }

  /** The retry budget of the drain phase. */
  const MaxDrainAttempts: nat := 5

  /**
   * The socket as the session sees it: inbound outcomes still to come, send
   * outcomes still to come (a send succeeds once these run out), the frames
   * accepted so far, and how many `close` and `recv` calls were made.
   */
  datatype Wire = Wire(inbox: seq<Inbound>, sendOk: seq<bool>, outbox: seq<seq<byte>>, closes: nat, recvs: nat)

  /** Result of a whole session: its outcome and the socket afterwards. */
  datatype Run = Run(outcome: Outcome, wire: Wire)

  /** Whether the next `send` goes through: the script's next outcome, or success once it has run out. */
  predicate SendGoesThrough(w: Wire) {
    |w.sendOk| == 0 || w.sendOk[0]
  }

  /** The socket after a `send` of `frame`: one send outcome is used up and an accepted frame is logged. */
  function AfterSend(w: Wire, frame: seq<byte>): (w': Wire)
    ensures w'.outbox == if SendGoesThrough(w) then w.outbox + [frame] else w.outbox
    ensures w'.inbox == w.inbox && w'.closes == w.closes && w'.recvs == w.recvs
  {
    w.(sendOk := if |w.sendOk| == 0 then [] else w.sendOk[1..],
       outbox := if SendGoesThrough(w) then w.outbox + [frame] else w.outbox)
  }

  /** What a `recv` returns: the script's next outcome, or a timeout once it has run out. */
  function NextInbound(w: Wire): Inbound {
    if |w.inbox| == 0 then Timeout else w.inbox[0]
  }

  /** The socket after a `recv`: the outcome returned is used up. */
  function AfterRecv(w: Wire): (w': Wire)
    ensures w'.recvs == w.recvs + 1
    ensures w'.outbox == w.outbox && w'.sendOk == w.sendOk && w'.closes == w.closes
    ensures IsSuffix(w'.inbox, w.inbox) && |w.inbox| - |w'.inbox| <= 1
  {
    if |w.inbox| == 0 then w.(recvs := w.recvs + 1)
    else w.(inbox := w.inbox[1..], recvs := w.recvs + 1)
  }

  function CloseOn(w: Wire): Wire {
    w.(closes := w.closes + 1)
  }

  /** A frame that could not be assembled is not sent, and the socket is not touched. */
  predicate FrameSent(w: Wire, frame: Option<seq<byte>>) {
    frame.Some? && SendGoesThrough(w)
  }

  function AfterSendFrame(w: Wire, frame: Option<seq<byte>>): Wire {
    if frame.None? then w else AfterSend(w, frame.value)
  }

  /**
   * `_receive_response` on one inbound outcome: the parsed payload of a
   * well-formed non-error frame; `None` for a timeout, a socket failure, an
   * unusable frame or a payload that is not JSON.
   */
  function Interpret(parse: seq<byte> -> Option<Reply>, x: Inbound): Option<Reply> {
    match x
    case Data(b) => (match DecodeServerFrame(b) case Some(p) => parse(p) case None => None)
    case _ => None
  }

  /**
   * The reply `_receive_response` returns on the socket, one `recv` read by
   * `read`; a timeout on an exhausted script is caught and yields no reply.
   * The socket afterwards is `AfterRecv(w)`.
   */
  function Received(read: Inbound -> Option<Reply>, w: Wire): Option<Reply> {
    if |w.inbox| == 0 then None else read(w.inbox[0])
  }


  /*
   * The transcript the server has delivered, read the way the protocol means
   * it: every non-empty text is the whole transcript so far and replaces the
   * previous one.
   */

  /** The text a reply carries: `result.text`, or "" when there is none. */
  function ReplyText(reply: Option<Reply>): string {
    if reply.Some? && reply.value.Result? then reply.value.text else ""
  }

  function TextOf(read: Inbound -> Option<Reply>, x: Inbound): string {
    ReplyText(read(x))
  }

  /** `if text: final_text = text` */
  function Overwrite(saved: string, t: string): string {
    if t != "" then t else saved
  }

  function Latest(read: Inbound -> Option<Reply>, text: string, xs: seq<Inbound>): string
    decreases |xs|
  {
    if |xs| == 0 then text else Latest(read, Overwrite(text, TextOf(read, xs[0])), xs[1..])
  }

  function Verdict(text: string): Outcome {
    if text != "" then Transcript(text) else NoTranscript
  }

  /** The inbound outcomes taken from the socket between two states. */
  function Consumed(before: Wire, after: Wire): seq<Inbound>
    requires IsSuffix(after.inbox, before.inbox)
  {
    before.inbox[..|before.inbox| - |after.inbox|]
  }

  /** The audio frame of packet `i`: its bytes, flagged last only when it is the final packet. */
  function PacketFrame(data: seq<byte>, i: nat): seq<byte>
    requires i < ChunkCount(|data|)
  {
    AudioFrame(Chunk(data, i), IsLastChunk(|data|, i)).value
  }

  /** The audio frames of a whole buffer, in sending order. */
  function PacketFrames(data: seq<byte>): (fs: seq<seq<byte>>)
    ensures |fs| == ChunkCount(|data|)
    ensures forall k :: 0 <= k < |fs| ==> fs[k] == PacketFrame(data, k)
  {
    seq(ChunkCount(|data|), k requires 0 <= k < ChunkCount(|data|) => PacketFrame(data, k))
  }

  /** The payloads of a sequence of frames. */
  function Payloads(fs: seq<seq<byte>>): (ps: seq<seq<byte>>)
    requires forall k :: 0 <= k < |fs| ==> |fs[k]| >= 8
    ensures |ps| == |fs| && forall k :: 0 <= k < |fs| ==> ps[k] == FramePayload(fs[k])
  {
    seq(|fs|, k requires 0 <= k < |fs| => FramePayload(fs[k]))
  }

  /**
   * The audio frames carry the whole buffer: their payloads, joined, are the
   * audio; only the final frame bears the last-packet flag.
   */
  lemma PacketFramesCarryAudio(data: seq<byte>)
    ensures forall k :: 0 <= k < |PacketFrames(data)| ==> |PacketFrames(data)[k]| >= 8
    ensures Concat(Payloads(PacketFrames(data))) == data
    ensures forall k :: 0 <= k < |PacketFrames(data)| ==>
              (FrameFlags(PacketFrames(data)[k]) == FlagLastPacket <==> k == |PacketFrames(data)| - 1)
  {
    var fs := PacketFrames(data);
    forall k | 0 <= k < |fs|
      ensures |fs[k]| >= 8 && FramePayload(fs[k]) == Chunk(data, k)
      ensures FrameFlags(fs[k]) == FlagLastPacket <==> k == |fs| - 1
    {
      AudioFrameLayout(Chunk(data, k), IsLastChunk(|data|, k));
    }
    assert Payloads(fs) == ChunksFrom(data, 0);
    ChunksCoverBuffer(data);
  }

  /** Packet `i`, cut and framed the way the packet loop does it, is frame `i` of `PacketFrames`. */
  lemma PacketFrameAt(data: seq<byte>, i: nat)
    requires i < ChunkCount(|data|)
    ensures i * ChunkSize <= Min(i * ChunkSize + ChunkSize, |data|) <= |data|
    ensures AudioFrame(data[i * ChunkSize..Min(i * ChunkSize + ChunkSize, |data|)], i == ChunkCount(|data|) - 1)
         == Some(PacketFrames(data)[i])
  {
    var c := Chunk(data, i);
  }

  /** A reply whose `result` cannot be read makes the session raise. */
  predicate Raises(reply: Option<Reply>) {
    reply == Some(MalformedResult)
  }

  /**
   * Draining: receive until a non-empty text (which wins at once), the first
   * missing response (which ends the session without text), or the budget of
   * five receives is spent. A response without text uses up an attempt.
   */
  function Drain(read: Inbound -> Option<Reply>, attempt: nat, w: Wire): Run
    requires attempt <= MaxDrainAttempts
    decreases MaxDrainAttempts - attempt
  {
    if attempt == MaxDrainAttempts then Run(NoTranscript, CloseOn(w))
    else
      var reply := Received(read, w);
      var w1 := AfterRecv(w);
      if Raises(reply) then Run(Failed, CloseOn(w1))
      else if reply.None? || ReplyText(reply) != "" then Run(Verdict(ReplyText(reply)), CloseOn(w1))
      else Drain(read, attempt + 1, w1)
  }

  /** Where one packet leaves the session: finished with a run, or continuing with the saved text. */
  datatype Step = Stop(run: Run) | Continue(text: string, wire: Wire)

  /**
   * One pass of the packet loop on `frame`, with `text` saved so far: send,
   * receive once; a non-empty text overwrites `text`, and on the final packet
   * ends the session at once. A missing response does not stop streaming.
   */
  function PacketStep(read: Inbound -> Option<Reply>, frame: seq<byte>, final: bool, text: string, w: Wire): Step {
    if !SendGoesThrough(w) then Stop(Run(Failed, CloseOn(AfterSend(w, frame))))
    else ReplyStep(read, final, text, AfterSend(w, frame))
  }

  /** The receiving half of a packet's pass, on the socket after a send that went through. */
  function ReplyStep(read: Inbound -> Option<Reply>, final: bool, text: string, w: Wire): Step {
    var reply := Received(read, w);
    var t := ReplyText(reply);
    if Raises(reply) then Stop(Run(Failed, CloseOn(AfterRecv(w))))
    else if t != "" && final then Stop(Run(Transcript(t), CloseOn(AfterRecv(w))))
    else Continue(Overwrite(text, t), AfterRecv(w))
  }

  /**
   * Streaming the audio frames from packet `i` on, one `PacketStep` each.
   * After the last packet the session drains, but only if no text was saved.
   */
  function Stream(read: Inbound -> Option<Reply>, frames: seq<seq<byte>>, i: nat, text: string, w: Wire): Run
    requires i <= |frames|
    decreases |frames| - i
  {
    if i == |frames| then
      if text != "" then Run(Transcript(text), CloseOn(w)) else Drain(read, 0, w)
    else
      match PacketStep(read, frames[i], i == |frames| - 1, text, w)
      case Stop(r) => r
      case Continue(t, w2) => Stream(read, frames, i + 1, t, w2)
  }

  /** The full-request frame of a session in format `audioFormat`. */
  function RequestFrame(serialize: RequestParams -> seq<byte>, audioFormat: string): Option<seq<byte>> {
    FullRequestFrame(serialize(BuildRequestParams(audioFormat)))
  }

  /**
   * `recognize_file` as a function of everything it reads: the audio (`None`
   * when the file does not exist), the format, whether the connection is
   * accepted, and the socket's script.
   */
  function Recognize(read: Inbound -> Option<Reply>, serialize: RequestParams -> seq<byte>,
                     audio: Option<seq<byte>>, audioFormat: string, accepting: bool, w: Wire): Run
  {
    if audio.None? || !accepting then Run(Failed, w)
    else
      var w1 := AfterSendFrame(w, RequestFrame(serialize, audioFormat));
      if !FrameSent(w, RequestFrame(serialize, audioFormat)) then Run(Failed, CloseOn(w1))
      else
        var first := Received(read, w1);
        var w2 := AfterRecv(w1);
        if first.None? then Run(Failed, CloseOn(w2))
        else Stream(read, PacketFrames(audio.value), 0, "", w2)
  }

  /*
   * What the session guarantees.
   */

  lemma LatestCons(read: Inbound -> Option<Reply>, text: string, x: Inbound, rest: seq<Inbound>)
    ensures Latest(read, text, [x] + rest) == Latest(read, Overwrite(text, TextOf(read, x)), rest)
  {
    assert ([x] + rest)[1..] == rest;
  }

  /** One receive takes the next scripted outcome or, on an empty script, times out and takes nothing. */
  lemma ConsumedStep(w: Wire, after: Wire)
    requires IsSuffix(after.inbox, AfterRecv(w).inbox)
    ensures IsSuffix(after.inbox, w.inbox)
    ensures |w.inbox| > 0 ==> Consumed(w, after) == [w.inbox[0]] + Consumed(AfterRecv(w), after)
    ensures |w.inbox| == 0 ==> Consumed(w, after) == Consumed(AfterRecv(w), after)
  {
  }

  /** The text a receive returns is the one the protocol's reading takes from what it consumed. */
  lemma ReceiveStep(read: Inbound -> Option<Reply>, text: string, w: Wire, after: Wire)
    requires IsSuffix(after.inbox, AfterRecv(w).inbox)
    ensures IsSuffix(after.inbox, w.inbox)
    ensures Latest(read, text, Consumed(w, after))
         == Latest(read, Overwrite(text, ReplyText(Received(read, w))), Consumed(AfterRecv(w), after))
  {
    ConsumedStep(w, after);
    var w1 := AfterRecv(w);
    assert AfterRecv(w) == w1;
    if |w.inbox| > 0 {
      var x := w.inbox[0];
      assert Received(read, w) == read(x);
      LatestCons(read, text, x, Consumed(w1, after));
    } else {
      assert Received(read, w) == None;
    }
  }

  /** A send logs the frame when it goes through and leaves the inbound script alone. */
  lemma SendStep(w: Wire, frame: seq<byte>)
    ensures AfterSend(w, frame).inbox == w.inbox
    ensures AfterSend(w, frame).closes == w.closes && AfterSend(w, frame).recvs == w.recvs
    ensures AfterSend(w, frame).outbox == if SendGoesThrough(w) then w.outbox + [frame] else w.outbox
  {
  }

  /** Draining sends nothing and closes the socket exactly once. */
  lemma {:induction false} DrainCloses(read: Inbound -> Option<Reply>, attempt: nat, w: Wire)
    requires attempt <= MaxDrainAttempts
    ensures Drain(read, attempt, w).wire.closes == w.closes + 1
    ensures Drain(read, attempt, w).wire.outbox == w.outbox
    decreases MaxDrainAttempts - attempt
  {
    if attempt < MaxDrainAttempts {
      var reply := Received(read, w);
      var w1 := AfterRecv(w);
      if Raises(reply) || reply.None? || ReplyText(reply) != "" {
        assert Drain(read, attempt, w).wire == CloseOn(w1);
      } else {
        assert Drain(read, attempt, w) == Drain(read, attempt + 1, w1);
        DrainCloses(read, attempt + 1, w1);
      }
    }
  }

  /** Draining takes inbound outcomes from the front of the script only. */
  lemma {:induction false} DrainConsumes(read: Inbound -> Option<Reply>, attempt: nat, w: Wire)
    requires attempt <= MaxDrainAttempts
    ensures IsSuffix(Drain(read, attempt, w).wire.inbox, w.inbox)
    decreases MaxDrainAttempts - attempt
  {
    if attempt < MaxDrainAttempts {
      var reply := Received(read, w);
      var w1 := AfterRecv(w);
      if Raises(reply) || reply.None? || ReplyText(reply) != "" {
        assert Drain(read, attempt, w).wire == CloseOn(w1);
      } else {
        assert Drain(read, attempt, w) == Drain(read, attempt + 1, w1);
        DrainConsumes(read, attempt + 1, w1);
        IsSuffixTrans(Drain(read, attempt + 1, w1).wire.inbox, w1.inbox, w.inbox);
      }
    }
  }

  /** Draining receives at least once and never more often than its remaining budget. */
  lemma {:induction false} DrainReceives(read: Inbound -> Option<Reply>, attempt: nat, w: Wire)
    requires attempt <= MaxDrainAttempts
    ensures Drain(read, attempt, w).wire.recvs <= w.recvs + (MaxDrainAttempts - attempt)
    ensures attempt < MaxDrainAttempts ==> Drain(read, attempt, w).wire.recvs > w.recvs
    decreases MaxDrainAttempts - attempt
  {
    if attempt < MaxDrainAttempts {
      var reply := Received(read, w);
      var w1 := AfterRecv(w);
      if Raises(reply) || reply.None? || ReplyText(reply) != "" {
        assert Drain(read, attempt, w).wire == CloseOn(w1);
      } else {
        assert Drain(read, attempt, w) == Drain(read, attempt + 1, w1);
        DrainReceives(read, attempt + 1, w1);
      }
    }
  }

  /** A drain that does not fail yields the latest non-empty text among the outcomes it consumed. */
  lemma {:induction false} DrainLatestText(read: Inbound -> Option<Reply>, attempt: nat, w: Wire)
    requires attempt <= MaxDrainAttempts
    ensures IsSuffix(Drain(read, attempt, w).wire.inbox, w.inbox)
    ensures Drain(read, attempt, w).outcome != Failed ==>
      Drain(read, attempt, w).outcome == Verdict(Latest(read, "", Consumed(w, Drain(read, attempt, w).wire)))
    decreases MaxDrainAttempts - attempt
  {
    DrainConsumes(read, attempt, w);
    var r := Drain(read, attempt, w);
    if attempt == MaxDrainAttempts {
      assert Consumed(w, r.wire) == [];
    } else {
      var reply := Received(read, w);
      var w1 := AfterRecv(w);
      DrainConsumes(read, attempt + 1, w1);
      if Raises(reply) {
        assert r.outcome == Failed;
      } else if reply.None? || ReplyText(reply) != "" {
        assert r == Run(Verdict(ReplyText(reply)), CloseOn(w1));
        assert Consumed(w1, r.wire) == [];
        ReceiveStep(read, "", w, r.wire);
      } else {
        assert r == Drain(read, attempt + 1, w1);
        ReceiveStep(read, "", w, r.wire);
        DrainLatestText(read, attempt + 1, w1);
      }
    }
  }

  /** A silent server ends the drain after exactly one receive, without a transcript. */
  lemma DrainOnSilence(read: Inbound -> Option<Reply>, w: Wire)
    requires |w.inbox| == 0 || read(w.inbox[0]).None?
    ensures Drain(read, 0, w).outcome == NoTranscript
    ensures Drain(read, 0, w).wire.recvs == w.recvs + 1
  {
    assert Received(read, w) == None;
  }

  /** Some consumed outcome is a reply whose `result` cannot be read. */
  predicate SomeRaises(read: Inbound -> Option<Reply>, xs: seq<Inbound>) {
    exists k :: 0 <= k < |xs| && Raises(read(xs[k]))
  }

  lemma SomeRaisesCons(read: Inbound -> Option<Reply>, x: Inbound, rest: seq<Inbound>)
    ensures SomeRaises(read, [x] + rest) <==> Raises(read(x)) || SomeRaises(read, rest)
  {
    var c := [x] + rest;
    assert c[0] == x;
    if SomeRaises(read, rest) {
      var k :| 0 <= k < |rest| && Raises(read(rest[k]));
      assert c[k + 1] == rest[k];
    }
    if SomeRaises(read, c) {
      var k :| 0 <= k < |c| && Raises(read(c[k]));
      if k > 0 {
        assert rest[k - 1] == c[k];
      }
    }
  }

  /** One receive adds its reply to the consumed outcomes that may raise. */
  lemma ConsumedRaises(read: Inbound -> Option<Reply>, w: Wire, after: Wire)
    requires IsSuffix(after.inbox, AfterRecv(w).inbox)
    ensures IsSuffix(after.inbox, w.inbox)
    ensures SomeRaises(read, Consumed(w, after)) <==>
      Raises(Received(read, w)) || SomeRaises(read, Consumed(AfterRecv(w), after))
  {
    ConsumedStep(w, after);
    if |w.inbox| > 0 {
      SomeRaisesCons(read, w.inbox[0], Consumed(AfterRecv(w), after));
    }
  }

  /** The inbound outcomes a drain from `attempt` takes off the script, in order. */
  function DrainTaken(read: Inbound -> Option<Reply>, attempt: nat, w: Wire): seq<Inbound>
    requires attempt <= MaxDrainAttempts
    decreases MaxDrainAttempts - attempt
  {
    if attempt == MaxDrainAttempts || |w.inbox| == 0 then []
    else
      var reply := read(w.inbox[0]);
      if Raises(reply) || reply.None? || ReplyText(reply) != "" then [w.inbox[0]]
      else [w.inbox[0]] + DrainTaken(read, attempt + 1, AfterRecv(w))
  }

  /** A drain that stops at its first receive takes at most that receive's outcome. */
  lemma DrainTakesLast(read: Inbound -> Option<Reply>, attempt: nat, w: Wire)
    requires attempt < MaxDrainAttempts
    requires var reply := Received(read, w); Raises(reply) || reply.None? || ReplyText(reply) != ""
    ensures IsSuffix(Drain(read, attempt, w).wire.inbox, w.inbox)
    ensures Consumed(w, Drain(read, attempt, w).wire) == DrainTaken(read, attempt, w)
  {
    var after := CloseOn(AfterRecv(w));
    assert Drain(read, attempt, w).wire == after;
    ConsumedStep(w, after);
    assert Consumed(AfterRecv(w), after) == [];
    if |w.inbox| > 0 {
      assert DrainTaken(read, attempt, w) == [w.inbox[0]];
      assert Consumed(w, after) == [w.inbox[0]] + [];
    }
  }

  /** `DrainTaken` is what the drain's receives consume. */
  lemma {:induction false} DrainTakes(read: Inbound -> Option<Reply>, attempt: nat, w: Wire)
    requires attempt <= MaxDrainAttempts
    ensures IsSuffix(Drain(read, attempt, w).wire.inbox, w.inbox)
    ensures Consumed(w, Drain(read, attempt, w).wire) == DrainTaken(read, attempt, w)
    decreases MaxDrainAttempts - attempt, 1
  {
    if attempt == MaxDrainAttempts {
      assert Drain(read, attempt, w).wire.inbox == w.inbox;
    } else {
      var reply := Received(read, w);
      if Raises(reply) || reply.None? || ReplyText(reply) != "" {
        DrainTakesLast(read, attempt, w);
      } else {
        DrainTakesNext(read, attempt, w);
      }
    }
  }

  /** `DrainTakes` for a receive after which the drain goes on. */
  lemma {:induction false} DrainTakesNext(read: Inbound -> Option<Reply>, attempt: nat, w: Wire)
    requires attempt < MaxDrainAttempts
    requires var reply := Received(read, w); !(Raises(reply) || reply.None? || ReplyText(reply) != "")
    ensures IsSuffix(Drain(read, attempt, w).wire.inbox, w.inbox)
    ensures Consumed(w, Drain(read, attempt, w).wire) == DrainTaken(read, attempt, w)
    decreases MaxDrainAttempts - attempt, 0
  {
    var w1 := AfterRecv(w);
    var r := Drain(read, attempt + 1, w1);
    assert Drain(read, attempt, w) == r;
    assert DrainTaken(read, attempt, w) == [w.inbox[0]] + DrainTaken(read, attempt + 1, w1);
    DrainTakes(read, attempt + 1, w1);
    ConsumedStep(w, r.wire);
  }

  /** A drain fails exactly when a reply it takes cannot have its `result` read. */
  lemma {:induction false} DrainFails(read: Inbound -> Option<Reply>, attempt: nat, w: Wire)
    requires attempt <= MaxDrainAttempts
    ensures Drain(read, attempt, w).outcome == Failed <==> SomeRaises(read, DrainTaken(read, attempt, w))
    decreases MaxDrainAttempts - attempt
  {
    if attempt < MaxDrainAttempts && |w.inbox| > 0 {
      var x := w.inbox[0];
      var w1 := AfterRecv(w);
      assert Received(read, w) == read(x);
      if Raises(read(x)) || read(x).None? || ReplyText(read(x)) != "" {
        assert DrainTaken(read, attempt, w) == [x] + [];
        SomeRaisesCons(read, x, []);
      } else {
        assert Drain(read, attempt, w) == Drain(read, attempt + 1, w1);
        assert DrainTaken(read, attempt, w) == [x] + DrainTaken(read, attempt + 1, w1);
        DrainFails(read, attempt + 1, w1);
        SomeRaisesCons(read, x, DrainTaken(read, attempt + 1, w1));
      }
    }
  }

  /** A reply that carries no text. */
  predicate Textless(read: Inbound -> Option<Reply>, x: Inbound) {
    read(x).Some? && TextOf(read, x) == ""
  }

  /**
   * Where a drain stopped, over the outcomes `c` it consumed with `budget`
   * receives left: every outcome but the last was a reply without text, and
   * it stopped on a missing response or a text, on an exhausted script, or
   * with its budget spent.
   */
  predicate DrainStopped(read: Inbound -> Option<Reply>, c: seq<Inbound>, budget: nat, exhausted: bool) {
    && |c| <= budget
    && (forall k :: 0 <= k < |c| - 1 ==> Textless(read, c[k]))
    && (|c| == budget || exhausted || (|c| > 0 && !Textless(read, c[|c| - 1])))
  }

  /** A reply without text in front of a properly stopped drain leaves it properly stopped. */
  lemma DrainStoppedCons(read: Inbound -> Option<Reply>, x: Inbound, rest: seq<Inbound>, budget: nat, exhausted: bool)
    requires budget >= 1 && Textless(read, x)
    requires DrainStopped(read, rest, budget - 1, exhausted)
    ensures DrainStopped(read, [x] + rest, budget, exhausted)
  {
    var c := [x] + rest;
    assert forall k :: 1 <= k < |c| ==> c[k] == rest[k - 1];
  }

  /** A drain that does not fail stops as `DrainStopped` says, `exhausted` meaning it took the whole script. */
  lemma {:induction false} DrainStopRule(read: Inbound -> Option<Reply>, attempt: nat, w: Wire)
    requires attempt <= MaxDrainAttempts
    ensures Drain(read, attempt, w).outcome != Failed ==>
      var c := DrainTaken(read, attempt, w);
      DrainStopped(read, c, MaxDrainAttempts - attempt, |c| == |w.inbox|)
    decreases MaxDrainAttempts - attempt
  {
    if attempt < MaxDrainAttempts && |w.inbox| > 0 {
      var x := w.inbox[0];
      var w1 := AfterRecv(w);
      assert Received(read, w) == read(x);
      if Textless(read, x) && !Raises(read(x)) {
        var rest := DrainTaken(read, attempt + 1, w1);
        assert Drain(read, attempt, w) == Drain(read, attempt + 1, w1);
        assert DrainTaken(read, attempt, w) == [x] + rest;
        assert |w1.inbox| == |w.inbox| - 1;
        DrainStopRule(read, attempt + 1, w1);
        if Drain(read, attempt, w).outcome != Failed {
          DrainStoppedCons(read, x, rest, MaxDrainAttempts - attempt, |rest| == |w1.inbox|);
        }
      } else {
        assert DrainTaken(read, attempt, w) == [x];
      }
    }
  }

  /**
   * Draining yields the first non-empty text it receives: replies without
   * text use up an attempt; a missing response, a text, an exhausted script
   * or the spent budget stop it; it fails only on a reply whose `result`
   * cannot be read.
   */
  lemma DrainFirstTextWins(read: Inbound -> Option<Reply>, attempt: nat, w: Wire)
    requires attempt <= MaxDrainAttempts
    ensures IsSuffix(Drain(read, attempt, w).wire.inbox, w.inbox)
    ensures var r := Drain(read, attempt, w);
      var c := Consumed(w, r.wire);
      && (r.outcome == Failed <==> SomeRaises(read, c))
      && (r.outcome != Failed ==> r.outcome == Verdict(Latest(read, "", c)))
      && (r.outcome != Failed ==> DrainStopped(read, c, MaxDrainAttempts - attempt, |r.wire.inbox| == 0))
  {
    DrainLatestText(read, attempt, w);
    DrainTakes(read, attempt, w);
    DrainStopRule(read, attempt, w);
    DrainFails(read, attempt, w);
  }

  /** What one packet does to the socket, and what it yields when it finishes the session. */
  lemma PacketStepFacts(read: Inbound -> Option<Reply>, frame: seq<byte>, final: bool, text: string, w: Wire)
    ensures var s := PacketStep(read, frame, final, text, w);
      && (s.Continue? ==> SendGoesThrough(w) && s.wire == AfterRecv(AfterSend(w, frame)))
      && (s.Continue? ==> s.text == Overwrite(text, ReplyText(Received(read, AfterSend(w, frame)))))
      && (s.Stop? ==> s.run.wire.closes == w.closes + 1 && s.run.wire.recvs <= w.recvs + 1)
      && (s.Stop? ==> IsSuffix(s.run.wire.inbox, w.inbox))
      && (s.Stop? ==> s.run.wire.outbox == if SendGoesThrough(w) then w.outbox + [frame] else w.outbox)
      && (s.Stop? && s.run.outcome != Failed ==> final && SendGoesThrough(w) && s.run.wire == CloseOn(AfterRecv(AfterSend(w, frame))))
      && (s.Stop? && s.run.outcome != Failed ==> s.run.outcome == Verdict(ReplyText(Received(read, AfterSend(w, frame)))))
  {
    SendStep(w, frame);
  }

  /**
   * When one packet fails the session: exactly when its send does not go
   * through or its reply cannot have its `result` read. A missing response
   * keeps the saved text and goes on streaming.
   */
  lemma PacketStepFails(read: Inbound -> Option<Reply>, frame: seq<byte>, final: bool, text: string, w: Wire)
    ensures var s := PacketStep(read, frame, final, text, w);
      && ((s.Stop? && s.run.outcome == Failed) <==> (!SendGoesThrough(w) || Raises(Received(read, AfterSend(w, frame)))))
      && (!SendGoesThrough(w) ==> s == Stop(Run(Failed, CloseOn(AfterSend(w, frame)))))
      && (s.Stop? && SendGoesThrough(w) ==> s.run.wire == CloseOn(AfterRecv(AfterSend(w, frame))))
      && (SendGoesThrough(w) && Received(read, AfterSend(w, frame)).None? ==> s == Continue(text, AfterRecv(AfterSend(w, frame))))
  {
    SendStep(w, frame);
  }

  /** Streaming from a packet that is not past the end is that packet's step, then the rest. */
  lemma StreamStep(read: Inbound -> Option<Reply>, frames: seq<seq<byte>>, i: nat, text: string, w: Wire)
    requires i < |frames|
    ensures var s := PacketStep(read, frames[i], i == |frames| - 1, text, w);
      Stream(read, frames, i, text, w) == if s.Stop? then s.run else Stream(read, frames, i + 1, s.text, s.wire)
  {
  }

  /** Streaming closes the socket exactly once. */
  lemma {:induction false} StreamCloses(read: Inbound -> Option<Reply>, frames: seq<seq<byte>>, i: nat, text: string, w: Wire)
    requires i <= |frames|
    ensures Stream(read, frames, i, text, w).wire.closes == w.closes + 1
    decreases |frames| - i
  {
    if i == |frames| {
      DrainCloses(read, 0, w);
    } else {
      var s := PacketStep(read, frames[i], i == |frames| - 1, text, w);
      PacketStepFacts(read, frames[i], i == |frames| - 1, text, w);
      StreamStep(read, frames, i, text, w);
      if s.Continue? {
        StreamCloses(read, frames, i + 1, s.text, s.wire);
      }
    }
  }

  /** Streaming takes inbound outcomes from the front of the script only. */
  lemma {:induction false} StreamConsumes(read: Inbound -> Option<Reply>, frames: seq<seq<byte>>, i: nat, text: string, w: Wire)
    requires i <= |frames|
    ensures IsSuffix(Stream(read, frames, i, text, w).wire.inbox, w.inbox)
    decreases |frames| - i
  {
    if i == |frames| {
      DrainConsumes(read, 0, w);
    } else {
      var s := PacketStep(read, frames[i], i == |frames| - 1, text, w);
      PacketStepFacts(read, frames[i], i == |frames| - 1, text, w);
      StreamStep(read, frames, i, text, w);
      if s.Continue? {
        StreamConsumes(read, frames, i + 1, s.text, s.wire);
        IsSuffixTrans(Stream(read, frames, i + 1, s.text, s.wire).wire.inbox, s.wire.inbox, w.inbox);
      }
    }
  }

  /** Streaming receives at most once per packet, plus the drain budget. */
  lemma {:induction false} StreamReceives(read: Inbound -> Option<Reply>, frames: seq<seq<byte>>, i: nat, text: string, w: Wire)
    requires i <= |frames|
    ensures Stream(read, frames, i, text, w).wire.recvs <= w.recvs + (|frames| - i) + MaxDrainAttempts
    decreases |frames| - i
  {
    if i == |frames| {
      DrainReceives(read, 0, w);
    } else {
      var s := PacketStep(read, frames[i], i == |frames| - 1, text, w);
      PacketStepFacts(read, frames[i], i == |frames| - 1, text, w);
      StreamStep(read, frames, i, text, w);
      if s.Continue? {
        StreamReceives(read, frames, i + 1, s.text, s.wire);
      }
    }
  }

  /** Streaming sends nothing but the remaining frames, in order: a prefix of them. */
  lemma {:induction false} StreamSendsInOrder(read: Inbound -> Option<Reply>, frames: seq<seq<byte>>, i: nat, text: string, w: Wire)
    requires i <= |frames|
    ensures w.outbox <= Stream(read, frames, i, text, w).wire.outbox
    ensures Stream(read, frames, i, text, w).wire.outbox[|w.outbox|..] <= frames[i..]
    decreases |frames| - i
  {
    var r := Stream(read, frames, i, text, w);
    if i == |frames| {
      DrainCloses(read, 0, w);
    } else {
      var s := PacketStep(read, frames[i], i == |frames| - 1, text, w);
      PacketStepFacts(read, frames[i], i == |frames| - 1, text, w);
      StreamStep(read, frames, i, text, w);
      assert frames[i..] == [frames[i]] + frames[i + 1..];
      if s.Continue? {
        StreamSendsInOrder(read, frames, i + 1, s.text, s.wire);
        PrefixCons(w.outbox, frames[i], r.wire.outbox, frames[i + 1..]);
      } else if SendGoesThrough(w) {
        assert r.wire.outbox[|w.outbox|..] == [frames[i]];
      }
    }
  }

  /** A stream that does not fail has sent every remaining frame, in order. */
  lemma {:induction false} StreamSendsAll(read: Inbound -> Option<Reply>, frames: seq<seq<byte>>, i: nat, text: string, w: Wire)
    requires i <= |frames|
    ensures Stream(read, frames, i, text, w).outcome != Failed ==>
      Stream(read, frames, i, text, w).wire.outbox == w.outbox + frames[i..]
    decreases |frames| - i, 1
  {
    var r := Stream(read, frames, i, text, w);
    if i == |frames| {
      DrainCloses(read, 0, w);
      assert w.outbox + frames[i..] == w.outbox;
    } else if PacketStep(read, frames[i], i == |frames| - 1, text, w).Continue? {
      StreamSendsAllPast(read, frames, i, text, w);
    } else {
      PacketStepFacts(read, frames[i], i == |frames| - 1, text, w);
      StreamStep(read, frames, i, text, w);
      if r.outcome != Failed {
        assert frames[i..] == [frames[i]];
      }
    }
  }

  /** `StreamSendsAll` for a packet after which streaming continues. */
  lemma {:induction false} StreamSendsAllPast(read: Inbound -> Option<Reply>, frames: seq<seq<byte>>, i: nat, text: string, w: Wire)
    requires i < |frames| && PacketStep(read, frames[i], i == |frames| - 1, text, w).Continue?
    ensures Stream(read, frames, i, text, w).outcome != Failed ==>
      Stream(read, frames, i, text, w).wire.outbox == w.outbox + frames[i..]
    decreases |frames| - i, 0
  {
    var s := PacketStep(read, frames[i], i == |frames| - 1, text, w);
    PacketStepFacts(read, frames[i], i == |frames| - 1, text, w);
    StreamStep(read, frames, i, text, w);
    StreamSendsAll(read, frames, i + 1, s.text, s.wire);
    assert w.outbox + frames[i..] == w.outbox + [frames[i]] + frames[i + 1..];
  }

  /**
   * Streaming overwrites, never appends: whatever the session yields is the
   * most recent non-empty text among the responses it received.
   */
  lemma {:induction false} StreamLatestWins(read: Inbound -> Option<Reply>, frames: seq<seq<byte>>, i: nat, text: string, w: Wire)
    requires i <= |frames|
    ensures IsSuffix(Stream(read, frames, i, text, w).wire.inbox, w.inbox)
    ensures Stream(read, frames, i, text, w).outcome != Failed ==>
      Stream(read, frames, i, text, w).outcome == Verdict(Latest(read, text, Consumed(w, Stream(read, frames, i, text, w).wire)))
    decreases |frames| - i
  {
    var r := Stream(read, frames, i, text, w);
    StreamConsumes(read, frames, i, text, w);
    if i == |frames| {
      if text != "" {
        assert Consumed(w, r.wire) == [];
      } else {
        DrainLatestText(read, 0, w);
      }
    } else {
      var s := PacketStep(read, frames[i], i == |frames| - 1, text, w);
      PacketStepFacts(read, frames[i], i == |frames| - 1, text, w);
      StreamStep(read, frames, i, text, w);
      var w1 := AfterSend(w, frames[i]);
      if r.outcome != Failed {
        assert Consumed(w, r.wire) == Consumed(w1, r.wire);
        if s.Continue? {
          StreamConsumes(read, frames, i + 1, s.text, s.wire);
          ReceiveStep(read, text, w1, r.wire);
          StreamLatestWins(read, frames, i + 1, s.text, s.wire);
        } else {
          assert Consumed(AfterRecv(w1), r.wire) == [];
          ReceiveStep(read, text, w1, r.wire);
        }
      }
    }
  }

  /**
   * Streaming fails exactly when a send does not go through, so that fewer
   * frames are accepted than packets remain, or when a reply it consumed
   * cannot have its `result` read. A missing response never fails it.
   */
  lemma {:induction false} StreamFails(read: Inbound -> Option<Reply>, frames: seq<seq<byte>>, i: nat, text: string, w: Wire)
    requires i <= |frames|
    ensures IsSuffix(Stream(read, frames, i, text, w).wire.inbox, w.inbox)
    ensures var r := Stream(read, frames, i, text, w);
      r.outcome == Failed <==>
        |r.wire.outbox| < |w.outbox| + (|frames| - i) || SomeRaises(read, Consumed(w, r.wire))
    decreases |frames| - i, 1
  {
    if i == |frames| {
      var r := Stream(read, frames, i, text, w);
      if text != "" {
        assert r.wire == CloseOn(w);
        assert Consumed(w, r.wire) == [];
      } else {
        assert r == Drain(read, 0, w);
        DrainCloses(read, 0, w);
        DrainTakes(read, 0, w);
        DrainFails(read, 0, w);
      }
    } else if PacketStep(read, frames[i], i == |frames| - 1, text, w).Continue? {
      StreamFailsPast(read, frames, i, text, w);
    } else {
      StreamFailsLast(read, frames, i, text, w);
    }
  }

  /** `StreamFails` for a packet that ends the session. */
  lemma StreamFailsLast(read: Inbound -> Option<Reply>, frames: seq<seq<byte>>, i: nat, text: string, w: Wire)
    requires i < |frames| && PacketStep(read, frames[i], i == |frames| - 1, text, w).Stop?
    ensures IsSuffix(Stream(read, frames, i, text, w).wire.inbox, w.inbox)
    ensures var r := Stream(read, frames, i, text, w);
      r.outcome == Failed <==>
        |r.wire.outbox| < |w.outbox| + (|frames| - i) || SomeRaises(read, Consumed(w, r.wire))
  {
    var s := PacketStep(read, frames[i], i == |frames| - 1, text, w);
    PacketStepFacts(read, frames[i], i == |frames| - 1, text, w);
    PacketStepFails(read, frames[i], i == |frames| - 1, text, w);
    StreamStep(read, frames, i, text, w);
    var r := s.run;
    var w1 := AfterSend(w, frames[i]);
    if SendGoesThrough(w) {
      assert r.wire == CloseOn(AfterRecv(w1));
      assert Consumed(AfterRecv(w1), r.wire) == [];
      ConsumedRaises(read, w1, r.wire);
      assert Consumed(w, r.wire) == Consumed(w1, r.wire);
    } else {
      assert r.wire == CloseOn(w1);
    }
  }

  /** `StreamFails` for a packet after which streaming continues. */
  lemma {:induction false} StreamFailsPast(read: Inbound -> Option<Reply>, frames: seq<seq<byte>>, i: nat, text: string, w: Wire)
    requires i < |frames| && PacketStep(read, frames[i], i == |frames| - 1, text, w).Continue?
    ensures IsSuffix(Stream(read, frames, i, text, w).wire.inbox, w.inbox)
    ensures var r := Stream(read, frames, i, text, w);
      r.outcome == Failed <==>
        |r.wire.outbox| < |w.outbox| + (|frames| - i) || SomeRaises(read, Consumed(w, r.wire))
    decreases |frames| - i, 0
  {
    var s := PacketStep(read, frames[i], i == |frames| - 1, text, w);
    PacketStepFacts(read, frames[i], i == |frames| - 1, text, w);
    StreamStep(read, frames, i, text, w);
    var r := Stream(read, frames, i + 1, s.text, s.wire);
    var w1 := AfterSend(w, frames[i]);
    StreamFails(read, frames, i + 1, s.text, s.wire);
    StreamConsumes(read, frames, i, text, w);
    assert Consumed(w, r.wire) == Consumed(w1, r.wire);
    ConsumedRaises(read, w1, r.wire);
  }

  /**
   * A missing file or a refused connection fails with nothing sent, received
   * or closed; every session that did connect closes the socket exactly once,
   * after at most one receive per packet plus the first response and the drain.
   */
  lemma RecognizeClosesOnce(read: Inbound -> Option<Reply>, serialize: RequestParams -> seq<byte>,
                            audio: Option<seq<byte>>, audioFormat: string, accepting: bool, w: Wire)
    ensures audio.None? || !accepting ==> Recognize(read, serialize, audio, audioFormat, accepting, w) == Run(Failed, w)
    ensures audio.Some? && accepting ==> Recognize(read, serialize, audio, audioFormat, accepting, w).wire.closes == w.closes + 1
    ensures Recognize(read, serialize, audio, audioFormat, accepting, w).wire.recvs
         <= w.recvs + 1 + (if audio.Some? then ChunkCount(|audio.value|) else 0) + MaxDrainAttempts
  {
    if audio.Some? && accepting {
      var frame := RequestFrame(serialize, audioFormat);
      var w1 := AfterSendFrame(w, frame);
      if FrameSent(w, frame) {
        SendStep(w, frame.value);
        var w2 := AfterRecv(w1);
        if Received(read, w1).Some? {
          StreamCloses(read, PacketFrames(audio.value), 0, "", w2);
          StreamReceives(read, PacketFrames(audio.value), 0, "", w2);
        }
      }
    }
  }

  /**
   * A session fails exactly when the file is missing, the connection is
   * refused, the request frame cannot be built or sent, no first response
   * arrives, an audio frame is not accepted, or a reply after the first
   * response cannot have its `result` read. The first response is only
   * checked for presence, so its contents never fail the session.
   */
  lemma RecognizeFails(read: Inbound -> Option<Reply>, serialize: RequestParams -> seq<byte>,
                       audio: Option<seq<byte>>, audioFormat: string, accepting: bool, w: Wire)
    ensures IsSuffix(Recognize(read, serialize, audio, audioFormat, accepting, w).wire.inbox, w.inbox)
    ensures var r := Recognize(read, serialize, audio, audioFormat, accepting, w);
      r.outcome == Failed <==>
        || audio.None? || !accepting
        || RequestFrame(serialize, audioFormat).None? || !SendGoesThrough(w)
        || Received(read, w).None?
        || |r.wire.outbox| < |w.outbox| + 1 + ChunkCount(|audio.value|)
        || (|Consumed(w, r.wire)| >= 1 && SomeRaises(read, Consumed(w, r.wire)[1..]))
  {
    var r := Recognize(read, serialize, audio, audioFormat, accepting, w);
    var frame := RequestFrame(serialize, audioFormat);
    if audio.None? || !accepting {
      assert r.wire == w;
      assert Consumed(w, r.wire) == [];
    } else if !FrameSent(w, frame) {
      assert r.wire.inbox == w.inbox;
      assert Consumed(w, r.wire) == [];
    } else {
      SendStep(w, frame.value);
      var w1 := AfterSendFrame(w, frame);
      var w2 := AfterRecv(w1);
      assert Received(read, w1) == Received(read, w);
      if Received(read, w).None? {
        assert r.wire == CloseOn(w2);
        ConsumedStep(w1, r.wire);
        assert Consumed(w, r.wire) == Consumed(w1, r.wire);
        assert Consumed(w2, r.wire) == [];
      } else {
        var frames := PacketFrames(audio.value);
        assert r == Stream(read, frames, 0, "", w2);
        StreamFails(read, frames, 0, "", w2);
        ConsumedStep(w1, r.wire);
        assert Consumed(w, r.wire) == Consumed(w1, r.wire);
        assert Consumed(w, r.wire)[1..] == Consumed(w2, r.wire);
      }
    }
  }

  /**
   * A session that does not fail has sent the full request and then every
   * audio frame, in order, and yields the latest non-empty text received
   * after the first response (the first response's own text is ignored).
   */
  lemma RecognizeSuccess(read: Inbound -> Option<Reply>, serialize: RequestParams -> seq<byte>,
                         audio: Option<seq<byte>>, audioFormat: string, accepting: bool, w: Wire)
    requires Recognize(read, serialize, audio, audioFormat, accepting, w).outcome != Failed
    ensures audio.Some? && accepting && RequestFrame(serialize, audioFormat).Some?
    ensures SendGoesThrough(w) && Received(read, w).Some?
    ensures Recognize(read, serialize, audio, audioFormat, accepting, w).wire.outbox
         == w.outbox + [RequestFrame(serialize, audioFormat).value] + PacketFrames(audio.value)
    ensures IsSuffix(Recognize(read, serialize, audio, audioFormat, accepting, w).wire.inbox, w.inbox)
    ensures |Consumed(w, Recognize(read, serialize, audio, audioFormat, accepting, w).wire)| >= 1
    ensures Recognize(read, serialize, audio, audioFormat, accepting, w).outcome
         == Verdict(Latest(read, "", Consumed(w, Recognize(read, serialize, audio, audioFormat, accepting, w).wire)[1..]))
  {
    var r := Recognize(read, serialize, audio, audioFormat, accepting, w);
    var frame := RequestFrame(serialize, audioFormat);
    var frames := PacketFrames(audio.value);
    var w1 := AfterSendFrame(w, frame);
    SendStep(w, frame.value);
    var first := Received(read, w1);
    var w2 := AfterRecv(w1);
    assert r == Stream(read, frames, 0, "", w2);
    StreamSendsAll(read, frames, 0, "", w2);
    StreamLatestWins(read, frames, 0, "", w2);
    assert frames[0..] == frames;
    assert first.Some?;
    ConsumedStep(w1, r.wire);
    assert Consumed(w, r.wire) == Consumed(w1, r.wire);
    assert Consumed(w, r.wire)[1..] == Consumed(w2, r.wire);
  }

  /** The scripted socket of one connection. */
  class ScriptedSocket {
    var inbox: seq<Inbound>
    var sendOk: seq<bool>
    var outbox: seq<seq<byte>>
    var closes: nat
    var recvs: nat
    /** Whether connecting to the service succeeds. */
    const accepting: bool

    constructor (accepting: bool, inbox: seq<Inbound>, sendOk: seq<bool>)
      ensures this.accepting == accepting
      ensures State() == Wire(inbox, sendOk, [], 0, 0)
    {
      this.accepting := accepting;
      this.inbox := inbox;
      this.sendOk := sendOk;
      this.outbox := [];
      this.closes := 0;
      this.recvs := 0;
    }

    function State(): Wire
      reads this
    {
      Wire(inbox, sendOk, outbox, closes, recvs)
    }

    method Send(frame: seq<byte>) returns (ok: bool)
      modifies this
      ensures ok == SendGoesThrough(old(State()))
      ensures State() == AfterSend(old(State()), frame)
    {
      ok := |sendOk| == 0 || sendOk[0];
      if |sendOk| > 0 {
        sendOk := sendOk[1..];
      }
      if ok {
        outbox := outbox + [frame];
      }
    }

    method Recv() returns (x: Inbound)
      modifies this
      ensures x == NextInbound(old(State()))
      ensures State() == AfterRecv(old(State()))
    {
      recvs := recvs + 1;
      if |inbox| == 0 {
        x := Timeout;
      } else {
        x := inbox[0];
        inbox := inbox[1..];
      }
    }

    method Close()
      modifies this
      ensures State() == CloseOn(old(State()))
    {
      closes := closes + 1;
    }
  }

  /** `DoubaoASRClient`: its credentials, its connection id, and the socket field `ws`. */
  class DoubaoAsrClient {
    const appKey: string
    const accessKey: string
    /** Generated once per client and sent on every connection it opens. */
    const connectId: string
    /** The service endpoint `_connect` dials. */
    const endpoint: ScriptedSocket
    /** The JSON parser `_receive_response` applies to a payload. */
    const parse: seq<byte> -> Option<Reply>
    /** What `_receive_response` makes of one inbound outcome: `Interpret(parse, ·)`. */
    const read: Inbound -> Option<Reply>
    const serialize: RequestParams -> seq<byte>
    var ws: ScriptedSocket?

    ghost predicate Valid()
      reads this
    {
      && (ws == null || ws == endpoint)
      && forall x {:trigger Interpret(parse, x)} :: read(x) == Interpret(parse, x)
    }

    constructor (appKey: string, accessKey: string, connectId: string, endpoint: ScriptedSocket,
                 parse: seq<byte> -> Option<Reply>, serialize: RequestParams -> seq<byte>)
      ensures Valid() && ws == null
      ensures this.appKey == appKey && this.accessKey == accessKey && this.connectId == connectId
      ensures this.endpoint == endpoint && this.parse == parse && this.serialize == serialize
      ensures forall x :: this.read(x) == Interpret(parse, x)
    {
      this.appKey := appKey;
      this.accessKey := accessKey;
      this.connectId := connectId;
      this.endpoint := endpoint;
      this.parse := parse;
      this.read := x => Interpret(parse, x);
      this.serialize := serialize;
      this.ws := null;
    }

    /** `_connect`: on success `ws` is the open connection; on failure it is left as it was. */
    method Connect() returns (ok: bool)
      requires Valid()
      modifies this`ws
      ensures Valid()
      ensures ok == endpoint.accepting
      ensures ws == if ok then endpoint else old(ws)
    {
      ok := endpoint.accepting;
      if ok {
        ws := endpoint;
      }
    }

    /** `_close`: closes an open connection and forgets it; a second call does nothing. */
    method Close()
      requires Valid()
      modifies this`ws, endpoint
      ensures Valid() && ws == null
      ensures endpoint.State() == if old(ws) != null then CloseOn(old(endpoint.State())) else old(endpoint.State())
    {
      if ws != null {
        ws.Close();
        ws := null;
      }
    }

    /** `_send_full_request`. */
    method SendFullRequest(audioFormat: string) returns (ok: bool)
      requires Valid() && ws != null
      modifies endpoint
      ensures ok == FrameSent(old(endpoint.State()), RequestFrame(serialize, audioFormat))
      ensures endpoint.State() == AfterSendFrame(old(endpoint.State()), RequestFrame(serialize, audioFormat))
    {
      var frame := FullRequestFrame(serialize(BuildRequestParams(audioFormat)));
      if frame.None? {
        return false;
      }
      ok := ws.Send(frame.value);
    }

    /** `_send_audio_packet`. */
    method SendAudioPacket(chunk: seq<byte>, isLast: bool) returns (ok: bool)
      requires Valid() && ws != null
      modifies endpoint
      ensures ok == FrameSent(old(endpoint.State()), AudioFrame(chunk, isLast))
      ensures endpoint.State() == AfterSendFrame(old(endpoint.State()), AudioFrame(chunk, isLast))
    {
      var frame := AudioFrame(chunk, isLast);
      if frame.None? {
        return false;
      }
      ok := ws.Send(frame.value);
    }

    /** `_receive_response`. */
    method ReceiveResponse() returns (reply: Option<Reply>)
      requires Valid() && ws != null
      modifies endpoint
      ensures reply == Received(read, old(endpoint.State()))
      ensures endpoint.State() == AfterRecv(old(endpoint.State()))
    {
      var x := ws.Recv();
      reply := None;
      if x.Data? {
        var payload := DecodeServerFrame(x.bytes);
        if payload.Some? {
          reply := parse(payload.value);
        }
      }
      assert reply == Interpret(parse, x);
    }

    /**
     * `recognize_file`. The result and the socket afterwards are those of
     * `Recognize`, whose lemmas and postconditions say what they mean.
     */
    method RecognizeFile(audio: Option<seq<byte>>, audioFormat: string) returns (text: Option<string>)
      requires Valid() && ws == null
      modifies this`ws, endpoint
      ensures Valid() && ws == null
      ensures text == Recognize(read, serialize, audio, audioFormat, endpoint.accepting, old(endpoint.State())).outcome.ToOption()
      ensures endpoint.State() == Recognize(read, serialize, audio, audioFormat, endpoint.accepting, old(endpoint.State())).wire
    {
      if audio.None? {
        return None;
      }
      var data := audio.value;
      var connected := Connect();
      if !connected {
        return None;
      }
      var sent := SendFullRequest(audioFormat);
      if !sent {
        Close();
        return None;
      }
      var first := ReceiveResponse();
      if first.None? {
        Close();
        return None;
      }
      text := StreamAudio(data);
    }

    /**
     * The packet loop of `recognize_file`, then the drain phase when no text
     * was saved, then the final close.
     */
    method StreamAudio(data: seq<byte>) returns (text: Option<string>)
      requires Valid() && ws != null
      modifies this`ws, endpoint
      ensures Valid() && ws == null
      ensures text == Stream(read, PacketFrames(data), 0, "", old(endpoint.State())).outcome.ToOption()
      ensures endpoint.State() == Stream(read, PacketFrames(data), 0, "", old(endpoint.State())).wire
    {
      var total := (|data| + ChunkSize - 1) / ChunkSize;
      ghost var target := Stream(read, PacketFrames(data), 0, "", endpoint.State());
      var finalText := "";
      var i := 0;
      while i < total
        invariant i <= total == ChunkCount(|data|)
        invariant Valid() && ws == endpoint
        invariant Stream(read, PacketFrames(data), i, finalText, endpoint.State()) == target
      {
        var done;
        done, text, finalText := StreamPacket(data, i, finalText);
        if done {
          return;
        }
        i := i + 1;
      }
      text := FinishStream(PacketFrames(data), finalText);
    }

    /**
     * One pass of the packet loop: send packet `i`, read one response, and
     * either finish the call (`done`) or carry the saved text to packet `i + 1`.
     */
    method StreamPacket(data: seq<byte>, i: nat, savedText: string) returns (done: bool, text: Option<string>, saved: string)
      requires Valid() && ws != null && i < ChunkCount(|data|)
      modifies this`ws, endpoint
      ensures Valid()
      ensures var step := PacketStep(read, PacketFrames(data)[i], i == ChunkCount(|data|) - 1, savedText, old(endpoint.State()));
        && (done <==> step.Stop?)
        && (done ==> ws == null && text == step.run.outcome.ToOption() && endpoint.State() == step.run.wire)
        && (!done ==> ws == endpoint && saved == step.text && endpoint.State() == step.wire)
    {
      var total := (|data| + ChunkSize - 1) / ChunkSize;
      var start := i * ChunkSize;
      var end := Min(start + ChunkSize, |data|);
      PacketFrameAt(data, i);
      var sent := SendAudioPacket(data[start..end], i == total - 1);
      if !sent {
        Close();
        return true, None, savedText;
      }
      done, text, saved := TakeReply(i == total - 1, savedText);
    }

    /** The receiving half of one pass of the packet loop, after the packet went out. */
    method TakeReply(final: bool, savedText: string) returns (done: bool, text: Option<string>, saved: string)
      requires Valid() && ws != null
      modifies this`ws, endpoint
      ensures Valid()
      ensures var step := ReplyStep(read, final, savedText, old(endpoint.State()));
        && (done <==> step.Stop?)
        && (done ==> ws == null && text == step.run.outcome.ToOption() && endpoint.State() == step.run.wire)
        && (!done ==> ws == endpoint && saved == step.text && endpoint.State() == step.wire)
    {
      var response := ReceiveResponse();
      if response.Some? && response.value.MalformedResult? {
        Close();
        return true, None, savedText;
      }
      saved := savedText;
      if response.Some? && response.value.Result? && response.value.text != "" {
        saved := response.value.text;
        if final {
          Close();
          return true, Some(saved), saved;
        }
      }
      done, text := false, None;
    }

    /** After the last packet: return the saved text, or drain for one when none was saved. */
    method FinishStream(ghost frames: seq<seq<byte>>, finalText: string) returns (text: Option<string>)
      requires Valid() && ws != null
      modifies this`ws, endpoint
      ensures Valid() && ws == null
      ensures text == Stream(read, frames, |frames|, finalText, old(endpoint.State())).outcome.ToOption()
      ensures endpoint.State() == Stream(read, frames, |frames|, finalText, old(endpoint.State())).wire
    {
      if finalText == "" {
        text := AwaitFinalResult();
        return;
      }
      Close();
      text := Some(finalText);
    }

    /**
     * The drain phase of `recognize_file`: up to five more receives for a
     * final result, then close. A malformed result raises into the method's
     * handler, which also closes and yields `None`.
     */
    method AwaitFinalResult() returns (text: Option<string>)
      requires Valid() && ws != null
      modifies this`ws, endpoint
      ensures Valid() && ws == null
      ensures text == Drain(read, 0, old(endpoint.State())).outcome.ToOption()
      ensures endpoint.State() == Drain(read, 0, old(endpoint.State())).wire
    {
      ghost var drained := Drain(read, 0, endpoint.State());
      var finalText := "";
      var attempt := 0;
      while attempt < MaxDrainAttempts
        invariant attempt <= MaxDrainAttempts
        invariant Valid() && ws == endpoint && finalText == ""
        invariant Drain(read, attempt, endpoint.State()) == drained
      {
        var response := ReceiveResponse();
        if response.Some? && !response.value.NoResult? {
          if response.value.MalformedResult? {
            assert drained == Run(Failed, CloseOn(endpoint.State()));
            Close();
            return None;
          }
          if response.value.text != "" {
            finalText := response.value.text;
            assert drained == Run(Transcript(finalText), CloseOn(endpoint.State()));
            break;
          }
        } else if response.None? {
          assert drained == Run(NoTranscript, CloseOn(endpoint.State()));
          break;
        }
        assert drained == Drain(read, attempt + 1, endpoint.State());
        attempt := attempt + 1;
      }
      assert drained == Run(if finalText != "" then Transcript(finalText) else NoTranscript, CloseOn(endpoint.State()));
      Close();
      text := if finalText != "" then Some(finalText) else None;
    }
  }
}
