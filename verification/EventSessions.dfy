/** Any sequence of messages to a tag (src/server/message.c) is, for each of its events, a run in the sense of
    `EventRuns`. */
module EventSessions {
  import opened Bits
  import opened Store
  import opened Events
  import opened EventRuns
  import Atomic
  import M = Mapping

  /** The data of a tag and the private buffers of its events. */
  datatype Shot = Shot(data: seq<byte>, tests: seq<seq<byte>>)

  ghost function Taken(tag: Tag): (s: Shot)
    reads tag, tag.data, tag.Buffers()
    ensures s.data == tag.data[..] && |s.tests| == |tag.events|
    ensures forall e :: 0 <= e < |tag.events| ==> s.tests[e] == tag.events[e].test[..]
  {
    var tests := seq(|tag.events|, e requires 0 <= e < |tag.events| reads tag, tag.Buffers() => tag.events[e].test[..]);
    Shot(tag.data[..], tests)
  }

  /** What event `e` sees of a run. */
  ghost function Snaps(shots: seq<Shot>, e: nat): (snaps: seq<Snap>)
    requires forall i :: 0 <= i < |shots| ==> e < |shots[i].tests|
    ensures |snaps| == |shots|
    ensures forall i :: 0 <= i < |shots| ==> snaps[i] == Snap(shots[i].data, shots[i].tests[e])
  {
    seq(|shots|, i requires 0 <= i < |shots| => Snap(shots[i].data, shots[i].tests[e]))
  }

  function Reached(changes: seq<M.Change>): (steps: seq<Reach>)
    ensures |steps| == |changes|
    ensures forall i :: 0 <= i < |changes| ==> steps[i] == Reach(changes[i].Offset(), changes[i].Length())
  {
    seq(|changes|, i requires 0 <= i < |changes| => Reach(changes[i].Offset(), changes[i].Length()))
  }

  /** Which of the steps sent event `e`. */
  function Sends(sent: seq<seq<bool>>, e: nat): (r: seq<bool>)
    requires forall i :: 0 <= i < |sent| ==> e < |sent[i]|
    ensures |r| == |sent| && forall i :: 0 <= i < |sent| ==> r[i] == sent[i][e]
  {
    seq(|sent|, i requires 0 <= i < |sent| => sent[i][e])
  }

  /** One message: the change, and the reaction of every event. */
  ghost predicate Reaction(watches: seq<Watch>, s: Shot, t: Shot, change: M.Change, sent: seq<bool>) {
    && |s.tests| == |t.tests| == |watches| == |sent| && |t.data| == |s.data|
    && change.Fits(|s.data|) && change.Makes(s.data, t.data)
    && forall e :: 0 <= e < |watches| ==>
         && |t.tests[e]| == |s.tests[e]|
         && IsStep(watches[e], Snap(s.data, s.tests[e]), Snap(t.data, t.tests[e]),
                   Reach(change.Offset(), change.Length()), sent[e])
  }

  function Watches(tag: Tag): (ws: seq<Watch>)
    reads tag
    ensures |ws| == |tag.events| && forall e :: 0 <= e < |tag.events| ==> ws[e] == tag.events[e].watch
  {
    seq(|tag.events|, e requires 0 <= e < |tag.events| reads tag => tag.events[e].watch)
  }

  /** Every event is one that the tag can have. */
  ghost predicate Fitting(watches: seq<Watch>, s: Shot) {
    && |watches| == |s.tests|
    && forall e :: 0 <= e < |watches| ==>
         && watches[e].Valid(|s.data|) && watches[e].Room(|s.tests[e]|)
         && (watches[e].kind == Deadband ==> IsDeadband(watches[e]))
  }

  /** The handlers of the three messages on a tag. */
  method Handle(tag: Tag, change: M.Change) returns (sent: seq<bool>)
    requires tag.Valid() && tag.Ready(change.Offset()) && change.Fits(tag.data.Length)
    modifies tag.data, tag.Buffers()
    ensures Reaction(Watches(tag), old(Taken(tag)), Taken(tag), change, sent)
  {
    hide Reacts, Applicable, Agree, Atomic.Computes, Atomic.Inverted, Written, MaskWritten;
    match change {
      case Write(offset, bytes) =>
        sent := tag.TagWrite(offset, bytes);
      case MaskWrite(offset, bytes, mask) =>
        sent := tag.TagMaskWrite(offset, bytes, mask);
      case AtomicOp(what, r, operand) =>
        var err;
        err, sent := Atomic.Perform(tag, what, r, operand);
    }
  }

  /** Any messages to a tag, from the first state to the last. */
  ghost predicate IsHistory(watches: seq<Watch>, shots: seq<Shot>, changes: seq<M.Change>, sent: seq<seq<bool>>) {
    && |shots| == |changes| + 1 == |sent| + 1 && Fitting(watches, shots[0])
    && forall i :: 0 <= i < |changes| ==> Reaction(watches, shots[i], shots[i + 1], changes[i], sent[i])
  }

  lemma {:induction false} SameSizes(watches: seq<Watch>, shots: seq<Shot>, changes: seq<M.Change>,
                                     sent: seq<seq<bool>>, i: nat, e: nat)
    requires IsHistory(watches, shots, changes, sent) && i < |shots| && e < |watches|
    ensures |shots[i].data| == |shots[0].data| && |shots[i].tests| == |watches|
    ensures |shots[0].tests| == |watches| && |shots[i].tests[e]| == |shots[0].tests[e]|
  {
    hide IsStep, M.Change.Makes;
    if i > 0 {
      SameSizes(watches, shots, changes, sent, i - 1, e);
      assert Reaction(watches, shots[i - 1], shots[i], changes[i - 1], sent[i - 1]);
    }
  }

  /** For every event of the tag a history is a run, with the private state in step if it was so at the start. */
  lemma HistoryIsRun(watches: seq<Watch>, shots: seq<Shot>, changes: seq<M.Change>, sent: seq<seq<bool>>, e: nat)
    requires IsHistory(watches, shots, changes, sent) && e < |watches|
    ensures forall i :: 0 <= i < |shots| ==> e < |shots[i].tests|
    ensures forall i :: 0 <= i < |sent| ==> e < |sent[i]|
    ensures IsRun(watches[e], Snaps(shots, e), Reached(changes), Sends(sent, e))
  {
    hide IsStep, M.Change.Makes, M.Change.Fits;
    forall i | 0 <= i < |shots|
      ensures |shots[i].data| == |shots[0].data| && e < |shots[i].tests|
      ensures e < |shots[0].tests| && |shots[i].tests[e]| == |shots[0].tests[e]|
    {
      SameSizes(watches, shots, changes, sent, i, e);
    }
    forall i | 0 <= i < |sent| ensures e < |sent[i]| {
      assert Reaction(watches, shots[i], shots[i + 1], changes[i], sent[i]);
    }
    var snaps, steps, sends := Snaps(shots, e), Reached(changes), Sends(sent, e);
    forall i | 0 <= i < |steps| ensures IsStep(watches[e], snaps[i], snaps[i + 1], steps[i], sends[i]) {
      assert Reaction(watches, shots[i], shots[i + 1], changes[i], sent[i]);
    }
  }

  /** Any sequence of messages to a tag is a history of its data and its events. */
  method Session(tag: Tag, changes: seq<M.Change>) returns (sent: seq<seq<bool>>, ghost shots: seq<Shot>)
    requires tag.Valid() && Fitting(Watches(tag), Taken(tag))
    requires forall i :: 0 <= i < |changes| ==> tag.Ready(changes[i].Offset()) && changes[i].Fits(tag.data.Length)
    modifies tag.data, tag.Buffers()
    ensures tag.Valid() && IsHistory(Watches(tag), shots, changes, sent)
    ensures shots[0] == old(Taken(tag)) && shots[|changes|] == Taken(tag)
  {
    hide Reaction, Fitting, M.Change.Fits, Applicable;
    ghost var watches := Watches(tag);
    sent, shots := [], [Taken(tag)];
    for n := 0 to |changes|
      invariant |sent| == n && |shots| == n + 1
      invariant shots[0] == old(Taken(tag)) && shots[n] == Taken(tag)
      invariant forall i :: 0 <= i < n ==> Reaction(watches, shots[i], shots[i + 1], changes[i], sent[i])
    {
      var hits := Handle(tag, changes[n]);
      sent, shots := sent + [hits], shots + [Taken(tag)];
    }
  }
}
