/**
 The client peer that follows a split package to its Final: tools/dm_client_sim.py:219-244.
 */
module DmClient {
  import opened Wrappers
  import opened Package
  import opened Messages
  import opened DmModel
  import opened DmSafety
  import opened DmService
  import D = DmSplit
  import F = DmReplies
  import A = DmAnswers
  import R = DmRetry
  import S = SyncMl
  import T = MoTree

  /** A continuation's part of the package is what follows the acknowledgements of the request. */
  lemma ChunkFollowsAcks(s: Settings, st: Stored, v: R.SessionView, rq: Request)
    requires D.MidPackage(st, v) && D.Asks(s, rq) && D.Timely(rq, v.expiresAt)
    ensures var e := Perform(s, st, Attempt(rq, None));
            e.answer.Some? &&
            (D.IsMessage(e.answer.value) ==>
               var entries := e.answer.value.reply.value.entries;
               |Acks(s, rq.message)| <= |entries| && Chunk(e.answer.value) == entries[|Acks(s, rq.message)|..])
  {
    D.AskStep(s, st, v, rq);
    assert Swept(s, st, rq) == st by { hide TooManyCommands; hide Handle; }
    R.PerformSplits(s, st, Attempt(rq, None));
    D.AskContinues(s, st, rq);
    A.ContinuationMakesProgress(s, st, rq);
    HandleHasShape(s, st, rq);
    hide Perform; hide Swept; hide Handle; hide FromStored; hide Acks; hide QueueFor; hide Chunk;
    hide D.Asks; hide AllStorable;
    hide R.Committed; hide D.EndView; hide R.ViewOf;
  }

  /** A message an attempt brings is one Handle made. */
  lemma AnswerFits(s: Settings, st: Stored, a: Attempt)
    ensures var answer := Perform(s, st, a).answer;
            answer.Some? && answer.value.Answered? && answer.value.reply.Some? ==>
                s.size(answer.value.reply.value) <= s.maxMsgSize
  {
    F.RepliesSay(s, Swept(s, st, a.request), a.request);
    hide Handle; hide Swept; hide Writes; hide ApplyAll; hide F.Addressed;
  }

  // ---- the exchange as the client sees it ----

  function MessageOf(out: Outcome): Option<Reply> {
    if D.IsMessage(out) then out.reply else None
  }

  /** The messages a client receives when it asks for more. */
  function FollowReplies(s: Settings, st: Stored, more: seq<Request>): seq<Reply>
    decreases |more|, 0
  {
    if more == [] then [] else RepliesFrom(s, Perform(s, st, Attempt(more[0], None)), more[1..])
  }

  function RepliesFrom(s: Settings, e: Effect, more: seq<Request>): seq<Reply>
    decreases |more|, 1
  {
    if e.answer.None? || MessageOf(e.answer.value).None? then []
    else
      var reply := MessageOf(e.answer.value).value;
      [reply] + if reply.final then [] else FollowReplies(s, e.st, more)
  }

  /** All the messages of an exchange. */
  function SendReplies(s: Settings, st: Stored, first: Request, more: seq<Request>): seq<Reply> {
    RepliesFrom(s, Perform(s, st, Attempt(first, None)), more)
  }

  /** What is left of messages when each loses the acknowledgements of the request it answers. */
  function Stripped(s: Settings, replies: seq<Reply>, requests: seq<Request>): seq<Entry>
    requires |replies| <= |requests|
  {
    if replies == [] then []
    else
      var (entries, acks) := (replies[0].entries, |Acks(s, requests[0].message)|);
      (if acks <= |entries| then entries[acks..] else []) + Stripped(s, replies[1..], requests[1..])
  }

  /** One more message of an exchange. */
  lemma FollowOne(s: Settings, st: Stored, received: seq<Entry>, messages: nat, more: seq<Request>)
    requires more != []
    ensures var e := Perform(s, st, Attempt(more[0], None));
            e.answer.Some? &&
            (var reply := MessageOf(e.answer.value);
             if reply.None? then
               && D.Follow(s, st, received, messages, more) == D.Exchange(e.st, received, messages, false, true)
               && FollowReplies(s, st, more) == []
             else
               var got := received + Chunk(e.answer.value);
               && FollowReplies(s, st, more)
                  == [reply.value] + (if reply.value.final then [] else FollowReplies(s, e.st, more[1..]))
               && D.Follow(s, st, received, messages, more)
                  == if reply.value.final then D.Exchange(e.st, got, messages + 1, true, false)
                     else D.Follow(s, e.st, got, messages + 1, more[1..]))
  {
    R.SentAgainSucceeds(s, st, more[0]);
    D.FollowUnfolds(s, st, received, messages, more);
    hide Perform; hide Chunk; hide D.Follow;
  }

  lemma SendOne(s: Settings, st: Stored, first: Request, more: seq<Request>)
    ensures var e := Perform(s, st, Attempt(first, None));
            e.answer.Some? &&
            (var reply := MessageOf(e.answer.value);
             if reply.None? then
               D.Send(s, st, first, more) == D.Exchange(e.st, [], 0, false, true)
                   && SendReplies(s, st, first, more) == []
             else
               var got := Chunk(e.answer.value);
               && SendReplies(s, st, first, more)
                  == [reply.value] + (if reply.value.final then [] else FollowReplies(s, e.st, more))
               && D.Send(s, st, first, more)
                  == if reply.value.final then D.Exchange(e.st, got, 1, true, false)
                      else D.Follow(s, e.st, got, 1, more))
  {
    R.SentAgainSucceeds(s, st, first);
    var e := Perform(s, st, Attempt(first, None));
    if D.IsMessage(e.answer.value) { D.SendUnfolds(s, st, first, more); }
    hide Perform; hide Chunk; hide D.Follow;
  }

  lemma NothingMore(s: Settings, st: Stored, received: seq<Entry>, messages: nat)
    ensures D.Follow(s, st, received, messages, []) == D.Exchange(st, received, messages, false, false)
    ensures FollowReplies(s, st, []) == []
  {
  }

  class DmClientSimulator {
    var largestMessage: nat

    constructor ()
      ensures largestMessage == 0
    {
      largestMessage := 0;
    }

    /** Send one request; None where the answer is not a message. */
    method Post(server: DmService, rq: Request, key: string, dev: string) returns (reply: Option<Reply>)
      requires key != "" && server.store.fuse.None?
      modifies this, server.store
      ensures server.store.fuse.None? && server.store.Elsewhere(key, dev) == old(server.store.Elsewhere(key, dev))
      ensures var e := Perform(server.settings, old(server.store.Records(key, dev)), Attempt(rq, None));
              && e.answer.Some? && server.store.Records(key, dev) == e.st
              && reply == MessageOf(e.answer.value)
      ensures largestMessage <= Larger(old(largestMessage), server.settings.maxMsgSize)
    {
      hide Perform; hide Handle;
      ghost var s, a := server.settings, server.store.Records(key, dev);
      AnswerFits(s, a, Attempt(rq, None));
      R.SentAgainSucceeds(s, a, rq);
      var response := server.Handle(rq, key, dev);
      var answer := response.value;
      if answer.Ok? && answer.value.status == 200 && answer.value.reply.Some? {
        reply := answer.value.reply;
        largestMessage := Larger(largestMessage, server.settings.size(reply.value));
      } else {
        reply := None;
      }
    }

    /** Send a request and follow the answer to its Final, asking with the requests in `more`. */
    method Exchange(server: DmService, first: Request, more: seq<Request>, key: string, dev: string)
      returns (replies: seq<Reply>, final: bool, refused: bool)
      requires key != "" && server.store.fuse.None?
      modifies this, server.store
      ensures var (before, s) := (old(server.store.Records(key, dev)), server.settings);
              var x := D.Send(s, before, first, more);
              && server.store.Records(key, dev) == x.st && final == x.final && refused == x.refused
              && replies == SendReplies(s, before, first, more) && |replies| == x.messages
      ensures server.store.Elsewhere(key, dev) == old(server.store.Elsewhere(key, dev))
      ensures largestMessage <= Larger(old(largestMessage), server.settings.maxMsgSize)
    {
      hide Perform; hide Chunk; hide D.Send; hide D.Follow; hide FollowReplies; hide SendReplies;
      ghost var s, a := server.settings, server.store.Records(key, dev);
      ghost var x, all := D.Send(s, a, first, more), SendReplies(s, a, first, more);
      ghost var received: seq<Entry> := [];
      SendOne(s, a, first, more);
      var reply := Post(server, first, key, dev);
      if reply.None? { return [], false, true; }
      received := Chunk(Perform(s, a, Attempt(first, None)).answer.value);
      replies, final, refused := [reply.value], reply.value.final, false;
      var i := 0;
      while !final && !refused && i < |more|
        invariant i <= |more| && server.store.fuse.None?
        invariant if final || refused
                  then x == D.Exchange(server.store.Records(key, dev), received, |replies|, final, refused)
                      && all == replies
                  else
                    && x == D.Follow(s, server.store.Records(key, dev), received, |replies|, more[i..])
                    && all == replies + FollowReplies(s, server.store.Records(key, dev), more[i..])
        invariant server.store.Elsewhere(key, dev) == old(server.store.Elsewhere(key, dev))
        invariant largestMessage <= Larger(old(largestMessage), s.maxMsgSize)
      {
        ghost var st := server.store.Records(key, dev);
        FollowOne(s, st, received, |replies|, more[i..]);
        assert more[i..][1..] == more[i + 1..];
        reply := Post(server, more[i], key, dev);
        if reply.Some? {
          received := received + Chunk(Perform(s, st, Attempt(more[i], None)).answer.value);
          ghost var rest :=
            if reply.value.final then [] else FollowReplies(s, server.store.Records(key, dev), more[i + 1..]);
          assert replies + ([reply.value] + rest) == (replies + [reply.value]) + rest;
          replies, final := replies + [reply.value], reply.value.final;
        } else {
          assert replies + [] == replies;
          refused := true;
        }
        i := i + 1;
      }
      if !final && !refused {
        assert more[i..] == [];
        NothingMore(s, server.store.Records(key, dev), received, |replies|);
      }
    }
  }

  function Larger(a: nat, b: nat): nat { if a < b then b else a }

  // ---- what the messages hold ----

  lemma {:induction false} FollowStrips(s: Settings, st: Stored, v: R.SessionView, received: seq<Entry>,
                                        messages: nat, more: seq<Request>)
    requires D.MidPackage(st, v) && D.AllAsk(s, more, v.expiresAt)
    ensures var (x, replies) := (D.Follow(s, st, received, messages, more), FollowReplies(s, st, more));
            |replies| <= |more| && x.received == received + Stripped(s, replies, more)
    decreases |more|
  {
    hide D.MidPackage; hide D.AllAsk; hide Perform; hide Chunk; hide D.Follow; hide FollowReplies; hide D.Asks;
    hide D.Timely;
    hide Acks; hide R.ViewOf; hide D.EndView; hide FromStored;
    if more == [] {
      NothingMore(s, st, received, messages);
    } else {
      D.AllAskRest(s, more, v.expiresAt);
      ChunkFollowsAcks(s, st, v, more[0]);
      D.AskStep(s, st, v, more[0]);
      FollowOne(s, st, received, messages, more);
      var e := Perform(s, st, Attempt(more[0], None));
      var replies := FollowReplies(s, st, more);
      if MessageOf(e.answer.value).Some? {
        var got := received + Chunk(e.answer.value);
        if !e.answer.value.reply.value.final {
          FollowStrips(s, e.st, v, got, messages + 1, more[1..]);
          assert replies[1..] == FollowReplies(s, e.st, more[1..]);
          D.Sequenced(received, Chunk(e.answer.value), Stripped(s, replies[1..], more[1..]));
        } else {
          assert replies[1..] == [];
          assert Stripped(s, replies[1..], more[1..]) == [];
          assert Chunk(e.answer.value) + [] == Chunk(e.answer.value);
        }
      }
    }
  }

  /**
   The package is in the messages: the first one's entries, and of each later one what follows the
   acknowledgements of its own request.
   */
  lemma MessagesHoldThePackage(s: Settings, st: Stored, first: Request, more: seq<Request>)
    requires D.Starts(s, st, first) && D.AllAsk(s, more, SessionFor(s, st, first).expiresAt)
    ensures var (x, replies) := (D.Send(s, st, first, more), SendReplies(s, st, first, more));
            && 1 <= |replies| <= |more| + 1
            && x.received == replies[0].entries + Stripped(s, replies[1..], more)
  {
    hide D.MidPackage; hide D.AllAsk; hide Perform; hide Chunk; hide D.Follow; hide FollowReplies;
    hide D.Starts; hide D.Send;
    hide Acks; hide SendReplies; hide Stripped;
    StartIsMessage(s, st, first);
    SendOne(s, st, first, more);
    var e := Perform(s, st, Attempt(first, None));
    var replies := SendReplies(s, st, first, more);
    var v := D.ViewAfterStart(s, st, first);
    if !e.answer.value.reply.value.final {
      FollowStrips(s, e.st, v, Chunk(e.answer.value), 1, more);
      assert replies[1..] == FollowReplies(s, e.st, more);
    } else {
      assert replies[1..] == [];
      NoneStripped(s, more);
    }
  }

  lemma NoneStripped(s: Settings, more: seq<Request>)
    ensures Stripped(s, [], more) == []
  {
  }

  lemma StartIsMessage(s: Settings, st: Stored, first: Request)
    requires D.Starts(s, st, first)
    ensures var e := Perform(s, st, Attempt(first, None));
            e.answer.Some? && D.IsMessage(e.answer.value) && Chunk(e.answer.value) == e.answer.value.reply.value.entries
            && (!e.answer.value.reply.value.final ==> D.MidPackage(e.st, D.ViewAfterStart(s, st, first)))
  {
    D.StartsMeans(s, st, first);
    D.StartStep(s, st, first);
    hide Perform; hide Handle; hide D.MidPackage; hide QueueFor; hide R.ViewOf; hide D.EndView; hide FromStored;
  }
}
