/** Events over whole runs of writes, masked writes and atomic operations (src/server/events.c,
    src/server/tagbase.c): what each event's private state says after every step, and exactly when a
    step notifies the client. */
module EventRuns {
  import opened Bits
  import opened Store
  import opened Types
  import opened Events

  // ---------------------------------------------------------------- what the private state means

  /** The private state is in step with the tag:
      a change event holds the watched data, a latch is only set while its condition holds, and an
      element differs from its reported value by less than the deadband or not at all. */
  ghost predicate Tracks(w: Watch, data: seq<byte>, test: seq<byte>)
    requires w.Valid(|data|) && w.Room(|test|) && (w.kind == Deadband ==> IsDeadband(w))
  {
    match w.kind
    case Write => true
    case Change => if w.IsBool() then SameBits(w, test, data) else test == data[w.byte..w.byte + w.size]
    case Deadband => forall e :: 0 <= e < w.count ==> Fresh(w, data, test, e)
    case _ => forall m :: 0 <= m < w.count ==> Latch(w, test, m) ==> Condition(w, data, m)
  }

  ghost predicate Fresh(w: Watch, data: seq<byte>, test: seq<byte>, e: nat)
    requires IsDeadband(w) && w.Valid(|data|) && w.Room(|test|) && e < w.count
  {
    var a := Reported(w, test, |data|, e); var b := Current(w, data, e);
    a == b || !Exceeds(w, a, b)
  }

  /** Two contents of a tag that agree outside a written range. */
  ghost predicate Agree(before: seq<byte>, after: seq<byte>, offset: nat, length: nat) {
    |before| == |after| && forall k :: 0 <= k < |before| && !(offset <= k < offset + length) ==> after[k] == before[k]
  }

  /** Something that the event watches is different. */
  ghost predicate Differs(w: Watch, before: seq<byte>, after: seq<byte>)
    requires w.Valid(|before|) && |after| == |before|
  {
    if w.IsBool() then exists m :: 0 <= m < w.count && DataBit(w, before, m) != DataBit(w, after, m)
    else before[w.byte..w.byte + w.size] != after[w.byte..w.byte + w.size]
  }

  /** A write keeps the private state in step, and a change event is sent exactly when something it
      watches has changed. */
  lemma StepTracks(w: Watch, before: seq<byte>, was: seq<byte>, after: seq<byte>, offset: nat, length: nat,
                   now: seq<byte>, hit: bool)
    requires Applicable(w, |before|, |was|, offset) && Tracks(w, before, was)
    requires Agree(before, after, offset, length) && Reacts(w, was, after, offset, length, now, hit)
    ensures Tracks(w, after, now)
    ensures w.kind == Change ==> (hit <==> Differs(w, before, after))
  {
    hide Bit, BitAt, ElementAt, Exceeds, Holds;
    match w.kind
    case Write =>
    case Change =>
      if w.IsBool() {
        ChangeBitsStep(w, before, was, after, offset, length, now, hit);
      } else {
        ChangeBytesStep(w, before, was, after, offset, length, now, hit);
      }
    case Deadband =>
      DeadbandStep(w, before, was, after, offset, length, now, hit);
    case _ =>
      LatchStep(w, before, was, after, offset, length, now, hit);
  }

  lemma ChangeBitsStep(w: Watch, before: seq<byte>, was: seq<byte>, after: seq<byte>, offset: nat, length: nat,
                       now: seq<byte>, hit: bool)
    requires w.kind == Change && w.IsBool() && Applicable(w, |before|, |was|, offset) && Tracks(w, before, was)
    requires Agree(before, after, offset, length) && Reacts(w, was, after, offset, length, now, hit)
    ensures Tracks(w, after, now) && (hit <==> Differs(w, before, after))
  {
    hide Bit, TestBit;
    if !w.Overlaps(offset, length) {
      forall m | 0 <= m < w.count ensures DataBit(w, after, m) == DataBit(w, before, m) {
        assert after[(8 * w.byte + w.bit + m) / 8] == before[(8 * w.byte + w.bit + m) / 8];
      }
    }
    hide DataBit;
    assert forall m :: 0 <= m < w.count ==> TestBit(w, was, m) == DataBit(w, before, m);
  }

  lemma ChangeBytesStep(w: Watch, before: seq<byte>, was: seq<byte>, after: seq<byte>, offset: nat, length: nat,
                        now: seq<byte>, hit: bool)
    requires w.kind == Change && !w.IsBool() && Applicable(w, |before|, |was|, offset) && Tracks(w, before, was)
    requires Agree(before, after, offset, length) && Reacts(w, was, after, offset, length, now, hit)
    ensures Tracks(w, after, now) && (hit <==> Differs(w, before, after))
  {
    var x, y := before[w.byte..w.byte + w.size], after[w.byte..w.byte + w.size];
    assert forall k :: 0 <= k < w.size ==> x[k] == before[w.byte + k] && y[k] == after[w.byte + k];
    if x == y {
      assert forall k :: 0 <= k < w.size ==> was[k] == after[w.byte + k];
    } else {
      var k :| 0 <= k < w.size && x[k] != y[k];
      assert was[k] != after[w.byte + k];
    }
  }

  lemma LatchStep(w: Watch, before: seq<byte>, was: seq<byte>, after: seq<byte>, offset: nat, length: nat,
                  now: seq<byte>, hit: bool)
    requires HasLatches(w) && Applicable(w, |before|, |was|, offset) && Tracks(w, before, was)
    requires Agree(before, after, offset, length) && Reacts(w, was, after, offset, length, now, hit)
    ensures Tracks(w, after, now)
  {
    hide Latch, Condition, Touched;
    forall m | 0 <= m < w.count && Latch(w, now, m) ensures Condition(w, after, m) {
      if !LooksAt(w, m, offset, length) {
        assert Latch(w, now, m) == Latch(w, was, m);
        ConditionKept(w, before, after, offset, length, m);
      }
    }
  }

  /** An item that a write does not reach keeps its condition. */
  lemma ConditionKept(w: Watch, before: seq<byte>, after: seq<byte>, offset: nat, length: nat, m: nat)
    requires HasLatches(w) && w.Valid(|before|) && m < w.count && Agree(before, after, offset, length)
    requires !LooksAt(w, m, offset, length)
    ensures Condition(w, before, m) == Condition(w, after, m)
  {
    hide Bit, Number, ElementAt;
    if w.IsBool() {
      assert after[(8 * w.byte + w.bit + m) / 8] == before[(8 * w.byte + w.bit + m) / 8];
    } else {
      ElementsFit(w, |before|);
      assert Element(w, before, w.byte, m) == Element(w, after, w.byte, m);
    }
  }

  lemma DeadbandStep(w: Watch, before: seq<byte>, was: seq<byte>, after: seq<byte>, offset: nat, length: nat,
                     now: seq<byte>, hit: bool)
    requires w.kind == Deadband && Applicable(w, |before|, |was|, offset) && Tracks(w, before, was)
    requires Agree(before, after, offset, length) && Reacts(w, was, after, offset, length, now, hit)
    ensures Tracks(w, after, now)
  {
    hide ElementAt, Exceeds, Reported, Current, Touched;
    forall e | 0 <= e < w.count ensures Fresh(w, after, now, e) {
      assert Fresh(w, before, was, e);
      if !(w.Overlaps(offset, length) && Touched(w, e, offset, length)) {
        ElementKept(w, before, after, offset, length, e);
      }
    }
  }

  lemma ElementKept(w: Watch, before: seq<byte>, after: seq<byte>, offset: nat, length: nat, e: nat)
    requires IsDeadband(w) && w.Valid(|before|) && e < w.count && Agree(before, after, offset, length)
    requires !(w.Overlaps(offset, length) && Touched(w, e, offset, length))
    ensures Current(w, before, e) == Current(w, after, e)
  {
    hide ElementAt;
    ElementsFit(w, |before|);
  }

  // ---------------------------------------------------------------- runs

  datatype Snap = Snap(data: seq<byte>, test: seq<byte>)

  /** The bytes that a step may have written. */
  datatype Reach = Reach(offset: nat, length: nat)

  /** A run of steps, each followed by the check of the event, and whether the event was sent. */
  ghost predicate IsRun(w: Watch, states: seq<Snap>, steps: seq<Reach>, sent: seq<bool>) {
    && |states| == |steps| + 1 && |sent| == |steps|
    && (forall i :: 0 <= i < |states| ==> |states[i].data| == |states[0].data| && |states[i].test| == |states[0].test|)
    && w.Valid(|states[0].data|) && w.Room(|states[0].test|) && (w.kind == Deadband ==> IsDeadband(w))
    && forall i :: 0 <= i < |steps| ==> IsStep(w, states[i], states[i + 1], steps[i], sent[i])
  }

  ghost predicate IsStep(w: Watch, s: Snap, t: Snap, step: Reach, sent: bool) {
    && Applicable(w, |s.data|, |s.test|, step.offset)
    && Agree(s.data, t.data, step.offset, step.length)
    && Reacts(w, s.test, t.data, step.offset, step.length, t.test, sent)
  }

  ghost predicate StartsInStep(w: Watch, states: seq<Snap>, steps: seq<Reach>, sent: seq<bool>) {
    IsRun(w, states, steps, sent) && Tracks(w, states[0].data, states[0].test)
  }

  /** Over every run the private state stays in step with the tag. */
  lemma {:induction false} AlwaysTracks(w: Watch, states: seq<Snap>, steps: seq<Reach>, sent: seq<bool>, i: nat)
    requires StartsInStep(w, states, steps, sent) && i < |states|
    ensures Tracks(w, states[i].data, states[i].test)
  {
    hide Tracks, Reacts, Agree, Applicable;
    if i > 0 {
      AlwaysTracks(w, states, steps, sent, i - 1);
      var s, t, r := states[i - 1], states[i], steps[i - 1];
      assert IsStep(w, s, t, r, sent[i - 1]);
      StepTracks(w, s.data, s.test, t.data, r.offset, r.length, t.test, sent[i - 1]);
    }
  }

  /** Over every run, a change event is sent by exactly the steps that change something it watches. */
  lemma ChangeIsExact(w: Watch, states: seq<Snap>, steps: seq<Reach>, sent: seq<bool>, i: nat)
    requires w.kind == Change && StartsInStep(w, states, steps, sent) && i < |steps|
    ensures sent[i] <==> Differs(w, states[i].data, states[i + 1].data)
  {
    hide Tracks, Reacts, Agree, Applicable, Differs;
    AlwaysTracks(w, states, steps, sent, i);
    var s, t, r := states[i], states[i + 1], steps[i];
    assert IsStep(w, s, t, r, sent[i]);
    StepTracks(w, s.data, s.test, t.data, r.offset, r.length, t.test, sent[i]);
  }

  /** Step `i` sends the event on account of item `m`. */
  ghost predicate Fires(w: Watch, states: seq<Snap>, steps: seq<Reach>, sent: seq<bool>, i: nat, m: nat)
    requires HasLatches(w) && IsRun(w, states, steps, sent) && i < |steps| && m < w.count
  {
    && LooksAt(w, m, steps[i].offset, steps[i].length)
    && Condition(w, states[i + 1].data, m) && !Latch(w, states[i].test, m)
  }

  lemma LatchAfter(w: Watch, states: seq<Snap>, steps: seq<Reach>, sent: seq<bool>, i: nat, m: nat)
    requires HasLatches(w) && IsRun(w, states, steps, sent) && i < |steps| && m < w.count
    ensures Latch(w, states[i + 1].test, m) ==
      if LooksAt(w, m, steps[i].offset, steps[i].length) then Condition(w, states[i + 1].data, m)
      else Latch(w, states[i].test, m)
    ensures Fires(w, states, steps, sent, i, m) ==> sent[i]
  {
    hide Latch, Condition, Touched;
    assert IsStep(w, states[i], states[i + 1], steps[i], sent[i]);
  }

  /** A latch stays set for as long as the condition of its item holds. */
  lemma {:induction false} LatchHolds(w: Watch, states: seq<Snap>, steps: seq<Reach>, sent: seq<bool>, i: nat, j: nat,
                                      m: nat)
    requires HasLatches(w) && IsRun(w, states, steps, sent) && i <= j < |states| && m < w.count
    requires Latch(w, states[i].test, m) && forall k :: i < k <= j ==> Condition(w, states[k].data, m)
    ensures Latch(w, states[j].test, m)
    decreases j
  {
    hide Latch, Condition, LooksAt;
    if i < j {
      LatchHolds(w, states, steps, sent, i, j - 1, m);
      LatchAfter(w, states, steps, sent, j - 1, m);
    }
  }

  /** SET, RESET and comparison events are edge triggered: between two sends on account of the same item
      there is a state in which its condition does not hold. */
  lemma EdgeTriggered(w: Watch, states: seq<Snap>, steps: seq<Reach>, sent: seq<bool>, i: nat, j: nat, m: nat)
    requires HasLatches(w) && IsRun(w, states, steps, sent) && i < j < |steps| && m < w.count
    requires Fires(w, states, steps, sent, i, m) && Fires(w, states, steps, sent, j, m)
    ensures exists k :: i + 1 < k <= j && !Condition(w, states[k].data, m)
  {
    hide Latch, Condition, LooksAt;
    LatchAfter(w, states, steps, sent, i, m);
    if forall k :: i + 1 < k <= j ==> Condition(w, states[k].data, m) {
      LatchHolds(w, states, steps, sent, i + 1, j, m);
      assert false;
    }
  }

  /** A latching event is sent exactly when some item makes it fire. */
  lemma SentIffFires(w: Watch, states: seq<Snap>, steps: seq<Reach>, sent: seq<bool>, i: nat)
    requires HasLatches(w) && IsRun(w, states, steps, sent) && i < |steps|
    ensures sent[i] <==> exists m :: 0 <= m < w.count && Fires(w, states, steps, sent, i, m)
  {
    hide Latch, Condition, LooksAt;
    assert IsStep(w, states[i], states[i + 1], steps[i], sent[i]);
    if sent[i] {
      var m :| 0 <= m < w.count && LooksAt(w, m, steps[i].offset, steps[i].length) &&
               Condition(w, states[i + 1].data, m) && !Latch(w, states[i].test, m);
      assert Fires(w, states, steps, sent, i, m);
    }
    forall m | 0 <= m < w.count && Fires(w, states, steps, sent, i, m) ensures sent[i] {
      LatchAfter(w, states, steps, sent, i, m);
    }
  }

  // ---------------------------------------------------------------- without the latches

  /** Item `m` of the tag is what the event waits for: a bit that is set or clear, or an element whose number is equal
      to, above or below that of the operand. */
  ghost predicate Satisfies(w: Watch, data: seq<byte>, m: nat)
    requires HasLatches(w) && w.Valid(|data|) && m < w.count
  {
    if w.kind == SetBit then BitAt(data, 8 * w.byte + w.bit + m)
    else if w.kind == ResetBit then !BitAt(data, 8 * w.byte + w.bit + m)
    else
      ElementsFit(w, |data|);
      var at := w.byte + w.Width() * m;
      var value, operand := Number(w.base, data[at..at + w.Width()]), Number(w.base, w.operand[..w.Width()]);
      if w.kind == Equal then value == operand else if w.kind == Greater then value > operand else value < operand
  }

  /** A step writes a byte that item `m` is read from; BOOL events go through all their bits. */
  ghost predicate Writes(w: Watch, m: nat, r: Reach) {
    if w.IsBool() then r.offset < w.byte + w.size && w.byte < r.offset + r.length
    else r.offset < w.byte + w.Width() * (m + 1) && w.byte + w.Width() * m < r.offset + r.length
  }

  /** Some step before `i` wrote to item `m`. */
  ghost predicate WrittenBefore(w: Watch, steps: seq<Reach>, i: nat, m: nat)
    requires i <= |steps|
  {
    exists j :: 0 <= j < i && Writes(w, m, steps[j])
  }

  lemma SatisfiesIs(w: Watch, data: seq<byte>, m: nat)
    requires HasLatches(w) && w.Valid(|data|) && m < w.count
    ensures Satisfies(w, data, m) == Condition(w, data, m)
  {
    hide BitAt, Number;
  }

  lemma WritesIs(w: Watch, length: nat, m: nat, r: Reach)
    requires HasLatches(w) && w.Valid(length) && m < w.count
    ensures Writes(w, m, r) == LooksAt(w, m, r.offset, r.length)
  {
    NextElement(w, m);
    if !w.IsBool() {
      ElementsFit(w, length);
      assert ElementAt(w, m) + w.Width() <= w.size;
    }
  }

  /** A new event has no latch set. */
  ghost predicate Unlatched(w: Watch, test: seq<byte>)
    requires HasLatches(w) && w.Room(|test|)
  {
    forall m :: 0 <= m < w.count ==> !Latch(w, test, m)
  }

  /** From the creation of the event on, a latch says that its item was written and satisfies the condition. */
  lemma {:induction false} LatchMeans(w: Watch, states: seq<Snap>, steps: seq<Reach>, sent: seq<bool>, i: nat, m: nat)
    requires HasLatches(w) && IsRun(w, states, steps, sent) && Unlatched(w, states[0].test)
    requires i < |states| && m < w.count
    ensures Latch(w, states[i].test, m) <==> WrittenBefore(w, steps, i, m) && Satisfies(w, states[i].data, m)
  {
    hide Latch, Condition, LooksAt, Satisfies, Writes;
    if i > 0 {
      LatchMeans(w, states, steps, sent, i - 1, m);
      LatchAfter(w, states, steps, sent, i - 1, m);
      WritesIs(w, |states[0].data|, m, steps[i - 1]);
      SatisfiesIs(w, states[i].data, m);
      SatisfiesIs(w, states[i - 1].data, m);
      var r := steps[i - 1];
      assert IsStep(w, states[i - 1], states[i], r, sent[i - 1]);
      if !Writes(w, m, r) {
        ConditionKept(w, states[i - 1].data, states[i].data, r.offset, r.length, m);
      }
    }
  }

  /** Step `i` writes to an item that satisfies the condition afterwards, and did not before or was never written. */
  ghost predicate Rises(w: Watch, states: seq<Snap>, steps: seq<Reach>, sent: seq<bool>, i: nat, m: nat)
    requires HasLatches(w) && IsRun(w, states, steps, sent) && i < |steps| && m < w.count
  {
    && Writes(w, m, steps[i]) && Satisfies(w, states[i + 1].data, m)
    && !(WrittenBefore(w, steps, i, m) && Satisfies(w, states[i].data, m))
  }

  /** Over every run from the creation of the event on, the steps that send it are exactly those by which some item
      comes to satisfy the condition; what the event keeps for itself does not enter. */
  lemma SentIffRises(w: Watch, states: seq<Snap>, steps: seq<Reach>, sent: seq<bool>, i: nat)
    requires HasLatches(w) && IsRun(w, states, steps, sent) && Unlatched(w, states[0].test) && i < |steps|
    ensures sent[i] <==> exists m :: 0 <= m < w.count && Rises(w, states, steps, sent, i, m)
  {
    SentIffFires(w, states, steps, sent, i);
    hide Latch, Condition, LooksAt, Satisfies, Writes, Unlatched;
    forall m | 0 <= m < w.count ensures Fires(w, states, steps, sent, i, m) <==> Rises(w, states, steps, sent, i, m) {
      LatchMeans(w, states, steps, sent, i, m);
      WritesIs(w, |states[0].data|, m, steps[i]);
      SatisfiesIs(w, states[i + 1].data, m);
    }
  }

  predicate Within(k: nat, from: nat, n: nat) {
    from <= k < from + n
  }

  /** A WRITE event is sent by exactly the steps that write a byte it watches, and by empty writes strictly inside. */
  lemma WriteIsExact(w: Watch, states: seq<Snap>, steps: seq<Reach>, sent: seq<bool>, i: nat)
    requires w.kind == Write && IsRun(w, states, steps, sent) && i < |steps|
    ensures steps[i].length > 0 ==>
      (sent[i] <==> exists k :: Within(k, steps[i].offset, steps[i].length) && Within(k, w.byte, w.size))
    ensures steps[i].length == 0 ==> (sent[i] <==> w.byte < steps[i].offset < w.byte + w.size)
  {
    var r := steps[i];
    assert IsStep(w, states[i], states[i + 1], r, sent[i]);
    if sent[i] && r.length > 0 {
      var k := if r.offset >= w.byte then r.offset else w.byte;
      assert Within(k, r.offset, r.length) && Within(k, w.byte, w.size);
    }
  }

  // ---------------------------------------------------------------- deadband events

  /** The deadband. */
  ghost function Band(w: Watch): int
    requires IsDeadband(w) && |w.operand| >= w.Width()
  {
    Number(w.base, w.operand[..w.Width()])
  }

  /** The events that measure every distance rightly. */
  ghost predicate Measures(w: Watch)
    requires IsDeadband(w) && |w.operand| >= w.Width()
  {
    w.base in {BYTE, WORD, UINT} || Band(w) <= 1
  }

  /** How far element `e` of the tag is from the value that was last reported. */
  ghost function Drift(w: Watch, data: seq<byte>, test: seq<byte>, e: nat): nat
    requires IsDeadband(w) && w.Valid(|data|) && w.Room(|test|) && e < w.count
  {
    Abs(Number(w.base, Reported(w, test, |data|, e)) - Number(w.base, Current(w, data, e)))
  }

  lemma ExceedsIsDrift(w: Watch, data: seq<byte>, test: seq<byte>, e: nat)
    requires IsDeadband(w) && w.Valid(|data|) && w.Room(|test|) && e < w.count && Measures(w)
    ensures Exceeds(w, Reported(w, test, |data|, e), Current(w, data, e)) <==> Drift(w, data, test, e) >= Band(w)
  {
    hide Reported, Current, Number, Distance;
    var a, b := Reported(w, test, |data|, e), Current(w, data, e);
    NumberInRange(w.base, a);
    NumberInRange(w.base, b);
    NumberInRange(w.base, w.operand[..w.Width()]);
    DeadbandExact(w.base, Band(w));
    assert SeesDistance(w.base, Band(w), Number(w.base, a), Number(w.base, b));
  }

  /** Over every run, each element has its reported value or has drifted from it by less than the deadband. */
  lemma DriftBelowBand(w: Watch, states: seq<Snap>, steps: seq<Reach>, sent: seq<bool>, i: nat, e: nat)
    requires w.kind == Deadband && StartsInStep(w, states, steps, sent) && Measures(w) && i < |states| && e < w.count
    ensures var s := states[i];
      Reported(w, s.test, |s.data|, e) == Current(w, s.data, e) || Drift(w, s.data, s.test, e) < Band(w)
  {
    hide Reported, Current, Exceeds, Drift, Reacts, Agree, Applicable;
    AlwaysTracks(w, states, steps, sent, i);
    var s := states[i];
    ExceedsIsDrift(w, s.data, s.test, e);
    assert Fresh(w, s.data, s.test, e);
  }

  /** Step `i` takes element `e` to the deadband or past it. */
  ghost predicate Escapes(w: Watch, states: seq<Snap>, steps: seq<Reach>, sent: seq<bool>, i: nat, e: nat)
    requires w.kind == Deadband && IsRun(w, states, steps, sent) && i < |steps| && e < w.count
  {
    && w.Overlaps(steps[i].offset, steps[i].length) && Touched(w, e, steps[i].offset, steps[i].length)
    && Drift(w, states[i + 1].data, states[i].test, e) >= Band(w)
  }

  /** Over every run, a deadband event is sent by exactly the steps that write to an element which then is at least
      the deadband away from the value last reported. */
  lemma SentIffEscapes(w: Watch, states: seq<Snap>, steps: seq<Reach>, sent: seq<bool>, i: nat)
    requires w.kind == Deadband && IsRun(w, states, steps, sent) && Measures(w) && i < |steps|
    ensures sent[i] <==> exists e :: 0 <= e < w.count && Escapes(w, states, steps, sent, i, e)
  {
    hide Reported, Current, Exceeds, Drift, Band, Touched, Measures;
    var s, t, r := states[i], states[i + 1], steps[i];
    assert IsStep(w, s, t, r, sent[i]);
    forall e | 0 <= e < w.count
      ensures Exceeds(w, Reported(w, s.test, |t.data|, e), Current(w, t.data, e))
        <==> Drift(w, t.data, s.test, e) >= Band(w)
    {
      ExceedsIsDrift(w, t.data, s.test, e);
    }
    if sent[i] {
      var e :| 0 <= e < w.count && Touched(w, e, r.offset, r.length) &&
               Exceeds(w, Reported(w, s.test, |t.data|, e), Current(w, t.data, e));
      assert Escapes(w, states, steps, sent, i, e);
    }
  }

  // ---------------------------------------------------------------- the server's objects

  /** An event with its private buffer (`_dax_event`). */
  class Event {
    const watch: Watch
    const test: array<byte>

    /** `_set_event_data`: a copy of the data, zeroed latches, or the present values as reported ones. */
    constructor (w: Watch, data: array<byte>)
      requires w.Valid(data.Length) && (w.kind == Deadband ==> IsDeadband(w))
      requires w.IsBool() ==> w.bit + w.count <= 8 * BufferSize(w)
      requires w.kind == Change || w.kind == Deadband ==> w.byte + BufferSize(w) <= data.Length
      ensures watch == w && fresh(test)
      ensures w.Room(test.Length)
      ensures Tracks(w, data[..], test[..])
      ensures HasLatches(w) ==> Unlatched(w, test[..])
      ensures w.kind == Deadband ==>
        forall e :: 0 <= e < w.count ==> Reported(w, test[..], data.Length, e) == Current(w, data[..], e)
    {
      hide Tracks, Reported, Current;
      var size := BufferSize(w);
      watch := w;
      if w.kind == Change || w.kind == Deadband {
        test := new byte[size](k requires 0 <= k < size && w.byte + size <= data.Length reads data => data[w.byte + k]);
      } else {
        test := new byte[size](_ => 0);
      }
      new;
      if w.kind == Change || w.kind == Deadband {
        assert test[..] == data[w.byte..w.byte + size];
        CopyTracks(w, test[..], data[..]);
      } else {
        ZerosTrack(w, test[..], data[..]);
      }
    }
  }

  /** The size of the private buffer. */
  function BufferSize(w: Watch): nat {
    match w.kind
    case Write => 0
    case Change => if w.IsBool() then (if w.count == 0 then 0 else (w.count - 1) / 8 + 1) else w.size
    case Deadband => w.size
    case _ => if w.count == 0 then 0 else (w.count - 1) / 8 + 1
  }

  /** One bit for each item, rounded up to bytes, for latches and copies of BOOLs; otherwise a copy of the range. */
  lemma BufferSizeIs(w: Watch)
    ensures HasLatches(w) || (w.kind == Change && w.IsBool()) ==> w.count <= 8 * BufferSize(w) < w.count + 8
    ensures w.kind == Deadband || (w.kind == Change && !w.IsBool()) ==> BufferSize(w) == w.size
  {}

  lemma CopyTracks(w: Watch, test: seq<byte>, data: seq<byte>)
    requires w.Valid(|data|) && w.kind in {Change, Deadband} && (w.kind == Deadband ==> IsDeadband(w))
    requires w.Room(|test|) && w.byte + |test| <= |data| && test == data[w.byte..w.byte + |test|]
    ensures Tracks(w, data, test)
    ensures w.kind == Deadband ==> forall e :: 0 <= e < w.count ==> Reported(w, test, |data|, e) == Current(w, data, e)
  {
    hide TestBit, DataBit, Reported, Current, Exceeds;
    if w.kind == Deadband {
      forall e | 0 <= e < w.count ensures Reported(w, test, |data|, e) == Current(w, data, e) {
        CopyReported(w, test, data, e);
      }
    } else if w.IsBool() {
      forall m | 0 <= m < w.count ensures TestBit(w, test, m) == DataBit(w, data, m) {
        CopyBit(w, test, data, m);
      }
    }
  }

  lemma CopyReported(w: Watch, test: seq<byte>, data: seq<byte>, e: nat)
    requires IsDeadband(w) && w.Valid(|data|) && |test| == w.size && test == data[w.byte..w.byte + w.size]
    requires e < w.count
    ensures Reported(w, test, |data|, e) == Current(w, data, e)
  {
    hide ElementAt;
    ElementsFit(w, |data|);
    SliceOfSlice(data, w.byte, w.size, ElementAt(w, e), w.Width());
  }

  lemma CopyBit(w: Watch, test: seq<byte>, data: seq<byte>, m: nat)
    requires w.Valid(|data|) && w.byte + |test| <= |data| && test == data[w.byte..w.byte + |test|]
    requires w.bit + m < 8 * |test| && w.bit + m < 8 * w.size
    ensures TestBit(w, test, m) == DataBit(w, data, m)
  {
    hide BitAt;
    SliceBit(data, w.byte, w.byte + |test|, w.bit + m);
  }

  lemma SliceOfSlice(s: seq<byte>, a: nat, n: nat, b: nat, m: nat)
    requires a + n <= |s| && b + m <= n
    ensures s[a..a + n][b..b + m] == s[a + b..a + b + m]
  {
    var t := s[a..a + n];
    var u, v := t[b..b + m], s[a + b..a + b + m];
    assert forall k :: 0 <= k < m ==> u[k] == v[k];
  }

  lemma ZerosTrack(w: Watch, test: seq<byte>, data: seq<byte>)
    requires w.Valid(|data|) && w.kind !in {Change, Deadband} && w.Room(|test|)
    requires forall k :: 0 <= k < |test| ==> test[k] == 0
    ensures Tracks(w, data, test) && (HasLatches(w) ==> Unlatched(w, test))
  {
    if HasLatches(w) {
      ZerosUnlatched(w, test);
    }
    hide Latch, Condition;
  }

  lemma ZerosUnlatched(w: Watch, test: seq<byte>)
    requires HasLatches(w) && w.Room(|test|) && forall k :: 0 <= k < |test| ==> test[k] == 0
    ensures Unlatched(w, test)
  {
    hide Bit;
    forall m | 0 <= m < w.count ensures !Latch(w, test, m) {
      ZeroBuffer(test, if w.kind in {SetBit, ResetBit} then w.bit + m else m);
    }
  }

  /** A tag and the events on it. */
  class Tag {
    const data: array<byte>
    var events: seq<Event>

    ghost predicate Valid()
      reads this
    {
      && (forall i :: 0 <= i < |events| ==> events[i].test != data)
      && (forall i, j :: 0 <= i < j < |events| ==> events[i].test != events[j].test)
    }

    /** All events can follow a write that starts at `offset`. */
    ghost predicate Ready(offset: nat)
      reads this
    {
      forall i :: 0 <= i < |events| ==> Applicable(events[i].watch, data.Length, events[i].test.Length, offset)
    }

    ghost function Buffers(): set<object>
      reads this
    {
      set i | 0 <= i < |events| :: events[i].test
    }

    /** `event_check`: every event in turn, and which of them were sent. */
    method EventCheck(offset: nat, length: nat) returns (sent: seq<bool>)
      requires Valid() && Ready(offset)
      modifies Buffers()
      ensures |sent| == |events|
      ensures forall i :: 0 <= i < |events| ==>
        Reacts(events[i].watch, old(events[i].test[..]), data[..], offset, length, events[i].test[..], sent[i])
    {
      hide Reacts, Applicable;
      sent := [];
      for n := 0 to |events|
        invariant |sent| == n && data[..] == old(data[..])
        invariant forall i :: 0 <= i < n ==>
          Reacts(events[i].watch, old(events[i].test[..]), data[..], offset, length, events[i].test[..], sent[i])
        invariant forall i :: n <= i < |events| ==> events[i].test[..] == old(events[i].test[..])
      {
        var e := events[n];
        var hit := EventHit(e.watch, e.test, data, offset, length);
        sent := sent + [hit];
      }
    }

    /** `tag_write` */
    method TagWrite(offset: nat, bytes: seq<byte>) returns (sent: seq<bool>)
      requires Valid() && Ready(offset) && offset + |bytes| <= data.Length
      modifies data, Buffers()
      ensures data[..] == Written(old(data[..]), offset, bytes) && Agree(old(data[..]), data[..], offset, |bytes|)
      ensures |sent| == |events|
      ensures forall i :: 0 <= i < |events| ==>
        Reacts(events[i].watch, old(events[i].test[..]), data[..], offset, |bytes|, events[i].test[..], sent[i])
    {
      hide Reacts, Applicable;
      CopyInto(data, offset, bytes);
      sent := EventCheck(offset, |bytes|);
    }

    /** `tag_mask_write` */
    method TagMaskWrite(offset: nat, bytes: seq<byte>, mask: seq<byte>) returns (sent: seq<bool>)
      requires Valid() && Ready(offset) && offset + |bytes| <= data.Length && |mask| == |bytes|
      modifies data, Buffers()
      ensures data[..] == MaskWritten(old(data[..]), offset, bytes, mask)
      ensures Agree(old(data[..]), data[..], offset, |bytes|)
      ensures |sent| == |events|
      ensures forall i :: 0 <= i < |events| ==>
        Reacts(events[i].watch, old(events[i].test[..]), data[..], offset, |bytes|, events[i].test[..], sent[i])
    {
      hide Reacts, Applicable, Merge;
      MergeInto(data, offset, bytes, mask);
      sent := EventCheck(offset, |bytes|);
    }
  }
}
