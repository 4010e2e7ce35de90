/**
 The per-message relay pipeline: the new-message handler and `copy_message`.

 Both are pure functions from the inbound notification and a platform oracle
 to the trace of effects the code performs (sends, sleeps, log records) and
 the way it ends. The oracle answers the n-th send request of one handler
 invocation with one of the three outcomes the code tells apart: success, a
 flood wait of some seconds, or any other error.

 The retry after a flood wait sits inside the `except FloodWaitError` clause,
 so an exception raised by the retry is not caught by the sibling
 `except Exception` clause: it escapes `copy_message` and ends the handler's
 loop over the targets. The model keeps that behaviour (status `Escaped`).
 */
module Relay {

  datatype Option<T> = None | Some(value: T)

  /** The author of a message as the platform reports it; only a user peer
      carries a `user_id`. */
  datatype Peer = PeerUser(userId: int) | PeerChat(chatId: int) | PeerChannel(channelId: int)

  /** What a copy reproduces: text, media, formatting spans and buttons. The
      model passes it through unchanged; how the platform library maps it
      onto send arguments is not modelled. */
  datatype Payload = Payload(text: string, media: Option<string>, entities: seq<string>, buttons: seq<string>)

  datatype Message = Message(id: int, fromId: Option<Peer>, payload: Payload)

  /** A new-message notification; the message itself may be absent. */
  datatype Notification = Notification(chatId: int, message: Option<Message>)

  /** How the platform answers one send request. */
  datatype SendOutcome = Ok | FloodWait(seconds: nat) | OtherError

  /** The answer to the n-th send request of one handler invocation. */
  type Platform = nat -> SendOutcome

  /** The informational log records, with the identifiers they mention. */
  datatype Note = NewMessage(chatId: int, msgId: int) | Copied(msgId: int, target: string)

  /** One observable effect. `Send` is a send request, whatever its answer. */
  datatype Event =
    | Send(target: string, payload: Payload)
    | Sleep(seconds: real)
    | LogInfo(note: Note)
    | LogWarning(wait: nat)
    | LogError(target: string)

  /** `Escaped` carries the outcome of the retry whose exception escaped. */
  datatype Status = Normal | Escaped(cause: SendOutcome)

  datatype Run = Run(trace: seq<Event>, status: Status)

  /** The number of send requests in a trace. */
  function Sends(trace: seq<Event>): nat
    decreases |trace|
  {
    if trace == [] then 0 else (if trace[0].Send? then 1 else 0) + Sends(trace[1..])
  }

  /** The number of occurrences of `e` in a trace. */
  function Count(trace: seq<Event>, e: Event): nat
    decreases |trace|
  {
    if trace == [] then 0 else (if trace[0] == e then 1 else 0) + Count(trace[1..], e)
  }

  // ---------------------------------------------------------------------
  // The shapes a copy can take
  // ---------------------------------------------------------------------

  /** A send that met a flood wait, the warning, the sleep of the wait, and
      the one retry to the same target with the same payload. */
  predicate Retried(b: seq<Event>, target: string, p: Payload)
  {
    && |b| == 4
    && b[0] == Send(target, p)
    && b[1].LogWarning? && b[1].wait >= 1
    && b[2] == Sleep(b[1].wait as real)
    && b[3] == Send(target, p)
  }

  /** Every trace `copy_message` can leave: a success logged as copied, a
      failure logged as an error, or a flood wait followed by one retry. */
  predicate CopyShape(b: seq<Event>, target: string, m: Message)
  {
    || b == [Send(target, m.payload), LogInfo(Copied(m.id, target))]
    || b == [Send(target, m.payload), LogError(target)]
    || Retried(b, target, m.payload)
  }

  // ---------------------------------------------------------------------
  // copy_message
  // ---------------------------------------------------------------------

  /** `copy_message(target, msg)`, whose first send request is the platform's
      n-th. A first `Ok` is logged as copied, any other error is logged as an
      error, and a flood wait of `s` seconds is followed by a sleep of `s + 1`
      and one retry. The copy escapes exactly when that retry does not
      succeed, carrying the retry's outcome. */
  function CopyMessage(platform: Platform, n: nat, target: string, m: Message): (r: Run)
    ensures CopyShape(r.trace, target, m)
    ensures platform(n).Ok? <==> r.trace == [Send(target, m.payload), LogInfo(Copied(m.id, target))]
    ensures platform(n).OtherError? <==> r.trace == [Send(target, m.payload), LogError(target)]
    ensures platform(n).FloodWait? <==> Retried(r.trace, target, m.payload)
    ensures platform(n).FloodWait? ==> r.trace[1].wait == platform(n).seconds + 1
    ensures r.status.Escaped? <==> platform(n).FloodWait? && !platform(n + 1).Ok?
    ensures r.status.Escaped? ==> r.status.cause == platform(n + 1)
    ensures Sends(r.trace) == if platform(n).FloodWait? then 2 else 1
  {
    match platform(n)
    case Ok =>
      var trace := [Send(target, m.payload), LogInfo(Copied(m.id, target))];
      assert Sends(trace) == 1 + Sends(trace[1..]);
      assert Sends(trace[1..]) == Sends(trace[2..]) && trace[2..] == [];
      Run(trace, Normal)
    case FloodWait(seconds) =>
      var wait := seconds + 1;
      var trace := [Send(target, m.payload), LogWarning(wait), Sleep(wait as real), Send(target, m.payload)];
      assert Sends(trace) == 1 + Sends(trace[1..]);
      assert Sends(trace[1..]) == Sends(trace[2..]);
      assert Sends(trace[2..]) == Sends(trace[3..]);
      Run(trace, if platform(n + 1).Ok? then Normal else Escaped(platform(n + 1)))
    case OtherError =>
      var trace := [Send(target, m.payload), LogError(target)];
      assert Sends(trace) == 1 + Sends(trace[1..]);
      assert Sends(trace[1..]) == Sends(trace[2..]) && trace[2..] == [];
      Run(trace, Normal)
  }

  // ---------------------------------------------------------------------
  // The handler
  // ---------------------------------------------------------------------

  /** The handler's loop over the targets from the platform's n-th send on:
      each target is copied and followed by a pause of `delay`, unless the
      copy escaped, which ends the loop at once. */
  function Pipeline(platform: Platform, n: nat, targets: seq<string>, m: Message, delay: real): (r: Run)
    ensures Sends(r.trace) <= 2 * |targets|
    ensures r.status.Escaped? ==> targets != [] && Sends(r.trace) >= 2
    ensures r.status.Escaped? ==> !r.status.cause.Ok?
    decreases |targets|
  {
    if targets == [] then Run([], Normal)
    else
      var c := CopyMessage(platform, n, targets[0], m);
      if c.status.Escaped? then c
      else
        var rest := Pipeline(platform, n + Sends(c.trace), targets[1..], m, delay);
        SendsAppend(c.trace + [Sleep(delay)], rest.trace);
        SendsAppend(c.trace, [Sleep(delay)]);
        Run(c.trace + [Sleep(delay)] + rest.trace, rest.status)
  }

  /** The loop filter: the message's author is a user peer whose id is the
      relay's own. A missing author or a chat or channel peer never matches. */
  predicate IsSelfAuthored(m: Message, selfId: int)
  {
    m.fromId.Some? && m.fromId.value.PeerUser? && m.fromId.value.userId == selfId
  }

  /** `handler(event)`: ignore a notification without a message or a message
      the relay wrote itself; otherwise log it and copy it to every target. */
  function Handler(platform: Platform, selfId: int, targets: seq<string>, delay: real, ev: Notification): (r: Run)
    ensures r.trace == [] <==> ev.message.None? || IsSelfAuthored(ev.message.value, selfId)
    ensures r.trace != [] ==> r.trace[0] == LogInfo(NewMessage(ev.chatId, ev.message.value.id))
    ensures Sends(r.trace) <= 2 * |targets|
  {
    match ev.message
    case None => Run([], Normal)
    case Some(m) =>
      if IsSelfAuthored(m, selfId) then Run([], Normal)
      else
        var p := Pipeline(platform, 0, targets, m, delay);
        SendsAppend([LogInfo(NewMessage(ev.chatId, m.id))], p.trace);
        Run([LogInfo(NewMessage(ev.chatId, m.id))] + p.trace, p.status)
  }

  // ---------------------------------------------------------------------
  // Counting
  // ---------------------------------------------------------------------

  lemma {:induction false} SendsAppend(a: seq<Event>, b: seq<Event>)
    ensures Sends(a + b) == Sends(a) + Sends(b)
    decreases |a|
  {
    if a == [] {
      assert a + b == b;
    } else {
      assert (a + b)[1..] == a[1..] + b;
      SendsAppend(a[1..], b);
    }
  }

  lemma {:induction false} CountAppend(a: seq<Event>, b: seq<Event>, e: Event)
    ensures Count(a + b, e) == Count(a, e) + Count(b, e)
    decreases |a|
  {
    if a == [] {
      assert a + b == b;
    } else {
      assert (a + b)[1..] == a[1..] + b;
      CountAppend(a[1..], b, e);
    }
  }

  // ---------------------------------------------------------------------
  // The trace as a sequence of copy blocks
  // ---------------------------------------------------------------------

  /** Copy blocks, each followed by one pause of `delay`. */
  function Paced(blocks: seq<seq<Event>>, delay: real): seq<Event>
    decreases |blocks|
  {
    if blocks == [] then [] else blocks[0] + [Sleep(delay)] + Paced(blocks[1..], delay)
  }

  /** Each block is a copy to the target at the same position. */
  predicate CopiesTo(blocks: seq<seq<Event>>, targets: seq<string>, m: Message)
  {
    && |blocks| <= |targets|
    && forall i :: 0 <= i < |blocks| ==> CopyShape(blocks[i], targets[i], m)
  }

  lemma CopiesToCons(b: seq<Event>, bs: seq<seq<Event>>, targets: seq<string>, m: Message)
    requires targets != [] && CopyShape(b, targets[0], m) && CopiesTo(bs, targets[1..], m)
    ensures CopiesTo([b] + bs, targets, m)
  {
    var blocks := [b] + bs;
    forall i | 0 <= i < |blocks|
      ensures CopyShape(blocks[i], targets[i], m)
    {
      if i > 0 {
        assert blocks[i] == bs[i - 1] && targets[i] == targets[1..][i - 1];
      }
    }
  }

  lemma PacedCons(b: seq<Event>, bs: seq<seq<Event>>, delay: real)
    ensures Paced([b] + bs, delay) == b + [Sleep(delay)] + Paced(bs, delay)
  {
    assert ([b] + bs)[1..] == bs;
  }

  /** Pacing all blocks but the last, for a list with one more block in front. */
  lemma PacedFrontCons(b: seq<Event>, bs: seq<seq<Event>>, delay: real)
    requires |bs| >= 1
    ensures Paced(([b] + bs)[..|bs|], delay) == b + [Sleep(delay)] + Paced(bs[..|bs| - 1], delay)
  {
    assert ([b] + bs)[..|bs|] == [b] + bs[..|bs| - 1];
    PacedCons(b, bs[..|bs| - 1], delay);
  }

  /** The two groupings of four traces that the proofs below meet. */
  lemma Regroup(a: seq<Event>, b: seq<Event>, c: seq<Event>, d: seq<Event>)
    ensures a + b + (c + d) == (a + b + c) + d
    ensures a + (b + c + d) == (a + b + c) + d
  {
  }

  /** The platform's answers decide the blocks: from its `n`-th send on, the
      first block is exactly the copy to the first target; every copy but the
      last ends normally, the next one starting after its sends; and `last`
      is the status of the last copy (normal when there is none). */
  predicate Answered(platform: Platform, n: nat, blocks: seq<seq<Event>>, targets: seq<string>, m: Message, last: Status)
    decreases |blocks|
  {
    if blocks == [] then last == Normal
    else
      && targets != []
      && var c := CopyMessage(platform, n, targets[0], m);
      && blocks[0] == c.trace
      && if |blocks| == 1 then c.status == last
         else c.status == Normal && Answered(platform, n + Sends(c.trace), blocks[1..], targets[1..], m, last)
  }

  /** A loop run made of `blocks`, from the platform's `n`-th send on: one
      copy block per target, in the targets' order, each the copy the
      platform's answers produce and each followed by exactly one pause. The
      run ends normally only when every copy did; if a retry escapes, the
      trace ends with that target's retry, the run's status is that copy's,
      no later target is attempted and no pause follows. */
  predicate PacedRun(platform: Platform, n: nat, r: Run, blocks: seq<seq<Event>>, targets: seq<string>, m: Message, delay: real)
  {
    && CopiesTo(blocks, targets, m)
    && Answered(platform, n, blocks, targets, m, r.status)
    && (r.status == Normal ==> |blocks| == |targets| && r.trace == Paced(blocks, delay))
    && (r.status.Escaped? ==>
          && |blocks| >= 1
          && Retried(blocks[|blocks| - 1], targets[|blocks| - 1], m.payload)
          && r.trace == Paced(blocks[..|blocks| - 1], delay) + blocks[|blocks| - 1])
  }

  /** A copy that ended normally, in front of a run made of blocks, with one
      pause between them, is a run made of one more block. */
  lemma PacedRunCons(platform: Platform, n: nat, rest: Run, bs: seq<seq<Event>>, targets: seq<string>, m: Message, delay: real)
    requires targets != [] && CopyMessage(platform, n, targets[0], m).status == Normal
    requires PacedRun(platform, n + Sends(CopyMessage(platform, n, targets[0], m).trace), rest, bs, targets[1..], m, delay)
    ensures var b := CopyMessage(platform, n, targets[0], m).trace;
            PacedRun(platform, n, Run(b + [Sleep(delay)] + rest.trace, rest.status), [b] + bs, targets, m, delay)
  {
    var b := CopyMessage(platform, n, targets[0], m).trace;
    var blocks := [b] + bs;
    CopiesToCons(b, bs, targets, m);
    assert blocks[0] == b && blocks[1..] == bs;
    if rest.status.Escaped? {
      var last := bs[|bs| - 1];
      assert blocks[|blocks| - 1] == last && targets[|blocks| - 1] == targets[1..][|bs| - 1];
      PacedFrontCons(b, bs, delay);
      Regroup(b, [Sleep(delay)], Paced(bs[..|bs| - 1], delay), last);
    } else {
      PacedCons(b, bs, delay);
    }
  }

  /** The loop's run is made of copy blocks, one per target attempted, as
      the platform's answers decide them. */
  lemma {:induction false} PipelineBlocks(platform: Platform, n: nat, targets: seq<string>, m: Message, delay: real)
    returns (blocks: seq<seq<Event>>)
    ensures PacedRun(platform, n, Pipeline(platform, n, targets, m, delay), blocks, targets, m, delay)
    decreases |targets|
  {
    if targets == [] {
      blocks := [];
    } else {
      var c := CopyMessage(platform, n, targets[0], m);
      if c.status.Escaped? {
        blocks := [c.trace];
        assert blocks[..0] == [];
        assert [] + c.trace == c.trace;
      } else {
        var n' := n + Sends(c.trace);
        var rest := Pipeline(platform, n', targets[1..], m, delay);
        var bs := PipelineBlocks(platform, n', targets[1..], m, delay);
        blocks := [c.trace] + bs;
        assert Pipeline(platform, n, targets, m, delay) == Run(c.trace + [Sleep(delay)] + rest.trace, rest.status);
        PacedRunCons(platform, n, rest, bs, targets, m, delay);
      }
    }
  }

  /** The handler's trace, for a message it relays: the "new message" record,
      then one copy block per target in the configured order, each followed by
      exactly one pause of `delay`; or, when a retry escapes, the blocks up to
      and including that target's and nothing after it. */
  lemma {:induction false} HandlerBlocks(platform: Platform, selfId: int, targets: seq<string>, delay: real, ev: Notification)
    returns (blocks: seq<seq<Event>>)
    requires ev.message.Some? && !IsSelfAuthored(ev.message.value, selfId)
    ensures var m := ev.message.value;
            var r := Handler(platform, selfId, targets, delay, ev);
            && CopiesTo(blocks, targets, m)
            && Answered(platform, 0, blocks, targets, m, r.status)
            && (r.status == Normal ==>
                  |blocks| == |targets| && r.trace == [LogInfo(NewMessage(ev.chatId, m.id))] + Paced(blocks, delay))
            && (r.status.Escaped? ==>
                  && |blocks| >= 1
                  && Retried(blocks[|blocks| - 1], targets[|blocks| - 1], m.payload)
                  && r.trace == [LogInfo(NewMessage(ev.chatId, m.id))] + Paced(blocks[..|blocks| - 1], delay) + blocks[|blocks| - 1])
  {
    blocks := PipelineBlocks(platform, 0, targets, ev.message.value, delay);
  }

  /** A flood wait on the first send whose retry also fails ends the handler
      after the first target: the new-message record, the send, the warning,
      the sleep, the retry, and nothing else, whatever the other targets. */
  lemma FailedRetryEndsHandler(platform: Platform, selfId: int, targets: seq<string>, delay: real, ev: Notification)
    requires ev.message.Some? && !IsSelfAuthored(ev.message.value, selfId)
    requires targets != [] && platform(0).FloodWait? && !platform(1).Ok?
    ensures var m := ev.message.value;
            var wait := platform(0).seconds + 1;
            var r := Handler(platform, selfId, targets, delay, ev);
            && r.trace == [LogInfo(NewMessage(ev.chatId, m.id)), Send(targets[0], m.payload), LogWarning(wait),
                           Sleep(wait as real), Send(targets[0], m.payload)]
            && r.status == Escaped(platform(1))
  {
  }

  /** A real number that a flood-wait sleep (a whole number of seconds, at
      least one) could equal. */
  predicate IsWholeSeconds(d: real)
  {
    d >= 1.0 && d == d.Floor as real
  }

  lemma CopyBlockHasNoPause(b: seq<Event>, target: string, m: Message, delay: real)
    requires CopyShape(b, target, m) && !IsWholeSeconds(delay)
    ensures Count(b, Sleep(delay)) == 0
  {
    var e := Sleep(delay);
    assert b[0] != e;
    assert Count(b, e) == Count(b[1..], e) == Count(b[2..], e);
    if Retried(b, target, m.payload) {
      assert b[2] != e by {
        var w := b[1].wait;
        assert (w as real).Floor == w;
      }
      assert Count(b[2..], e) == Count(b[3..], e) == Count(b[4..], e);
      assert b[4..] == [];
    } else {
      assert b[2..] == [];
    }
  }

  lemma {:induction false} PacedPauseCount(blocks: seq<seq<Event>>, targets: seq<string>, m: Message, delay: real)
    requires |blocks| == |targets| && !IsWholeSeconds(delay)
    requires forall i :: 0 <= i < |blocks| ==> CopyShape(blocks[i], targets[i], m)
    ensures Count(Paced(blocks, delay), Sleep(delay)) == |blocks|
    decreases |blocks|
  {
    if blocks != [] {
      var rest := blocks[1..];
      forall i | 0 <= i < |rest|
        ensures CopyShape(rest[i], targets[1..][i], m)
      {
        assert rest[i] == blocks[i + 1];
      }
      PacedPauseCount(rest, targets[1..], m, delay);
      CopyBlockHasNoPause(blocks[0], targets[0], m, delay);
      CountAppend(blocks[0] + [Sleep(delay)], Paced(rest, delay), Sleep(delay));
      CountAppend(blocks[0], [Sleep(delay)], Sleep(delay));
      assert Count([Sleep(delay)], Sleep(delay)) == 1;
    }
  }

  /** When no exception escapes, the handler pauses `delay` exactly once per
      target, provided the delay cannot be mistaken for a flood-wait sleep. */
  lemma PauseOncePerTarget(platform: Platform, selfId: int, targets: seq<string>, delay: real, ev: Notification)
    requires ev.message.Some? && !IsSelfAuthored(ev.message.value, selfId)
    requires Handler(platform, selfId, targets, delay, ev).status == Normal
    requires !IsWholeSeconds(delay)
    ensures Count(Handler(platform, selfId, targets, delay, ev).trace, Sleep(delay)) == |targets|
  {
    var m := ev.message.value;
    var blocks := HandlerBlocks(platform, selfId, targets, delay, ev);
    PacedPauseCount(blocks, targets, m, delay);
    var head := [LogInfo(NewMessage(ev.chatId, m.id))];
    CountAppend(head, Paced(blocks, delay), Sleep(delay));
    assert Count(head, Sleep(delay)) == 0 by { assert head[1..] == []; }
  }

  /** A message without an author, or whose author is not a user peer, is
      never taken for the relay's own: it is logged and the first target is
      attempted. */
  lemma NoUserIdIsRelayed(platform: Platform, selfId: int, targets: seq<string>, delay: real, ev: Notification)
    requires ev.message.Some?
    requires ev.message.value.fromId.None? || !ev.message.value.fromId.value.PeerUser?
    ensures var r := Handler(platform, selfId, targets, delay, ev);
            && |r.trace| >= 1
            && r.trace[0] == LogInfo(NewMessage(ev.chatId, ev.message.value.id))
            && (targets != [] ==> |r.trace| >= 2 && r.trace[1] == Send(targets[0], ev.message.value.payload))
  {
    var m := ev.message.value;
    if targets != [] {
      var c := CopyMessage(platform, 0, targets[0], m);
      assert c.trace[0] == Send(targets[0], m.payload);
    }
  }

  // ---------------------------------------------------------------------
  // The handler as the source writes it: a loop with an early exit
  // ---------------------------------------------------------------------

  lemma PipelineStep(platform: Platform, n: nat, targets: seq<string>, i: nat, m: Message, delay: real)
    requires i < |targets|
    ensures var c := CopyMessage(platform, n, targets[i], m);
            var here := Pipeline(platform, n, targets[i..], m, delay);
            var next := Pipeline(platform, n + Sends(c.trace), targets[i + 1..], m, delay);
            && (c.status.Escaped? ==> here == c)
            && (c.status == Normal ==>
                  here.trace == c.trace + [Sleep(delay)] + next.trace && here.status == next.status)
  {
    assert targets[i..][0] == targets[i];
    assert targets[i..][1..] == targets[i + 1..];
  }

  /** The loop has produced `trace` for the targets before `targets[i]`, and
      the platform has answered `n` sends: the rest of the loop completes the
      handler's run `whole`. */
  ghost predicate Relayed(platform: Platform, n: nat, targets: seq<string>, i: nat, m: Message, delay: real,
                          trace: seq<Event>, whole: Run)
    requires i <= |targets|
  {
    && trace + Pipeline(platform, n, targets[i..], m, delay).trace == whole.trace
    && Pipeline(platform, n, targets[i..], m, delay).status == whole.status
  }

  lemma RelayedNext(platform: Platform, n: nat, targets: seq<string>, i: nat, m: Message, delay: real,
                    trace: seq<Event>, whole: Run)
    requires i < |targets| && Relayed(platform, n, targets, i, m, delay, trace, whole)
    requires CopyMessage(platform, n, targets[i], m).status == Normal
    ensures var c := CopyMessage(platform, n, targets[i], m);
            Relayed(platform, n + Sends(c.trace), targets, i + 1, m, delay, trace + c.trace + [Sleep(delay)], whole)
  {
    var c := CopyMessage(platform, n, targets[i], m);
    PipelineStep(platform, n, targets, i, m, delay);
    var next := Pipeline(platform, n + Sends(c.trace), targets[i + 1..], m, delay);
    Regroup(trace, c.trace, [Sleep(delay)], next.trace);
  }

  lemma RelayedEscape(platform: Platform, n: nat, targets: seq<string>, i: nat, m: Message, delay: real,
                      trace: seq<Event>, whole: Run)
    requires i < |targets| && Relayed(platform, n, targets, i, m, delay, trace, whole)
    requires CopyMessage(platform, n, targets[i], m).status.Escaped?
    ensures var c := CopyMessage(platform, n, targets[i], m);
            Run(trace + c.trace, c.status) == whole
  {
    PipelineStep(platform, n, targets, i, m, delay);
  }

  lemma RelayedStart(platform: Platform, selfId: int, targets: seq<string>, delay: real, ev: Notification)
    requires ev.message.Some? && !IsSelfAuthored(ev.message.value, selfId)
    ensures Relayed(platform, 0, targets, 0, ev.message.value, delay,
                    [LogInfo(NewMessage(ev.chatId, ev.message.value.id))],
                    Handler(platform, selfId, targets, delay, ev))
  {
    assert targets[0..] == targets;
  }

  lemma RelayedDone(platform: Platform, n: nat, targets: seq<string>, m: Message, delay: real,
                    trace: seq<Event>, whole: Run)
    requires Relayed(platform, n, targets, |targets|, m, delay, trace, whole)
    ensures Run(trace, Normal) == whole
  {
    assert targets[|targets|..] == [];
    assert trace + [] == trace;
  }

  /** The handler step by step, as the source runs it: a `for` loop over the
      targets that an escaping retry leaves early. */
  method RelayMessage(platform: Platform, selfId: int, targets: seq<string>, delay: real, ev: Notification)
    returns (trace: seq<Event>, status: Status)
    ensures Run(trace, status) == Handler(platform, selfId, targets, delay, ev)
  {
    trace := [];
    status := Normal;
    if ev.message.None? {
      return;
    }
    var m := ev.message.value;
    if m.fromId.Some? && m.fromId.value.PeerUser? && m.fromId.value.userId == selfId {
      return;
    }
    ghost var whole := Handler(platform, selfId, targets, delay, ev);
    trace := [LogInfo(NewMessage(ev.chatId, m.id))];
    RelayedStart(platform, selfId, targets, delay, ev);
    var n: nat := 0;
    var i := 0;
    while i < |targets|
      invariant 0 <= i <= |targets|
      invariant status == Normal && Relayed(platform, n, targets, i, m, delay, trace, whole)
    {
      var escaped;
      n, trace, escaped, status := RelayStep(platform, n, targets, i, m, delay, trace, whole);
      if escaped {
        return;
      }
      i := i + 1;
    }
    RelayedDone(platform, n, targets, m, delay, trace, whole);
  }

  /** One pass of the loop: copy to `targets[i]`, then either stop with the
      escaping outcome or pause and go on. */
  method RelayStep(platform: Platform, n: nat, targets: seq<string>, i: nat, m: Message, delay: real,
                   trace: seq<Event>, ghost whole: Run)
    returns (n': nat, trace': seq<Event>, escaped: bool, status: Status)
    requires i < |targets| && Relayed(platform, n, targets, i, m, delay, trace, whole)
    ensures escaped ==> Run(trace', status) == whole
    ensures !escaped ==> status == Normal && Relayed(platform, n', targets, i + 1, m, delay, trace', whole)
  {
    var c := CopyMessage(platform, n, targets[i], m);
    if c.status.Escaped? {
      RelayedEscape(platform, n, targets, i, m, delay, trace, whole);
      return n, trace + c.trace, true, c.status;
    }
    RelayedNext(platform, n, targets, i, m, delay, trace, whole);
    return n + Sends(c.trace), trace + c.trace + [Sleep(delay)], false, Normal;
  }
}
