/** Event groups: a word of flag bits and an unordered list of tasks that wait for some or all of a set of them. What a
    waiting task wants is packed into its event list item together with control bits. A word is modelled as the set of
    the positions of its one bits, so that bitwise and, or and complement are the set operations. */
module EventBits {

  type Word = set<nat>

  const CLEAR_ON_EXIT: nat := 24
  const UNBLOCKED_BY_SET: nat := 25
  const WAIT_FOR_ALL: nat := 26
  const ITEM_IN_USE: nat := 31
  const CONTROL_BYTES: Word := {24, 25, 26, 27, 28, 29, 30, 31}

  /** What a task asked for. */
  datatype Call = Call(mask: Word, clear: bool, all: bool)

  datatype Waiter = Waiter(task: nat, value: Word)

  /** What a call gave its task. */
  datatype Return = Return(task: nat, call: Call, bits: Word, timedOut: bool)

  /** `woken` holds the item values of the tasks that have left the list and not yet run. */
  datatype Group = Group(bits: Word, waiting: seq<Waiter>, woken: map<nat, Word>, calls: map<nat, Call>,
                         outcomes: seq<Return>)

  datatype Action =
    | SetBits(added: Word)
    | ClearBits(clear: Word)
    | WaitBits(task: nat, call: Call, block: bool)
    | Sync(task: nat, added: Word, mask: Word, block: bool)
    | Expire(position: nat)
    | Resume(task: nat)

  /** prvTestWaitCondition */
  predicate Met(bits: Word, mask: Word, all: bool) {
    if all then bits * mask == mask else bits * mask != {}
  }

  predicate Satisfied(bits: Word, call: Call) {
    Met(bits, call.mask, call.all)
  }

  function Pack(call: Call): Word {
    call.mask + (if call.clear then {CLEAR_ON_EXIT} else {}) + (if call.all then {WAIT_FOR_ALL} else {}) + {ITEM_IN_USE}
  }

  function Unpack(value: Word): Call {
    Call(value - CONTROL_BYTES, CLEAR_ON_EXIT in value, WAIT_FOR_ALL in value)
  }

  lemma UnpackPack(call: Call)
    requires call.mask !! CONTROL_BYTES
    ensures Unpack(Pack(call)) == call
    ensures UNBLOCKED_BY_SET !in Pack(call)
  {
  }

  /** What a freed task finds in its item: the bits as they were when it was freed, marked. */
  function Marked(bits: Word): Word { bits + {UNBLOCKED_BY_SET, ITEM_IN_USE} }

  lemma UnmarkMarked(bits: Word)
    requires bits !! CONTROL_BYTES
    ensures UNBLOCKED_BY_SET in Marked(bits)
    ensures Marked(bits) - CONTROL_BYTES == bits
  {
  }

  /** Clearing bits satisfies nobody. */
  lemma FewerBits(bits: Word, fewer: Word, call: Call)
    requires fewer <= bits
    requires Satisfied(fewer, call)
    ensures Satisfied(bits, call)
  {
    if call.all {
      assert call.mask <= fewer;
    } else {
      assert fewer * call.mask <= bits * call.mask;
    }
  }

  // ----- setting bits

  predicate Matches(w: Waiter, bits: Word) {
    Satisfied(bits, Unpack(w.value))
  }

  function Kept(waiting: seq<Waiter>, bits: Word): seq<Waiter> {
    if waiting == [] then []
    else (if Matches(waiting[0], bits) then [] else [waiting[0]]) + Kept(waiting[1..], bits)
  }

  function Freed(waiting: seq<Waiter>, bits: Word): seq<Waiter> {
    if waiting == [] then []
    else (if Matches(waiting[0], bits) then [waiting[0]] else []) + Freed(waiting[1..], bits)
  }

  /** The bits that the freed waiters want cleared. */
  function ToClear(waiting: seq<Waiter>, bits: Word): Word {
    if waiting == [] then {}
    else
      var rest := ToClear(waiting[1..], bits);
      var call := Unpack(waiting[0].value);
      if Matches(waiting[0], bits) && call.clear then rest + call.mask else rest
  }

  function Wake(woken: map<nat, Word>, freed: seq<Waiter>, bits: Word): map<nat, Word> {
    woken + map w: Waiter <- freed :: w.task := Marked(bits)
  }

  lemma NothingToWake(woken: map<nat, Word>, bits: Word)
    ensures Wake(woken, [], bits) == woken
  {
  }

  function AfterSet(g: Group, added: Word): Group {
    var bits := g.bits + added;
    g.(bits := bits - ToClear(g.waiting, bits),
       waiting := Kept(g.waiting, bits),
       woken := Wake(g.woken, Freed(g.waiting, bits), bits))
  }

  lemma {:induction false} KeptAndFreed(waiting: seq<Waiter>, bits: Word)
    ensures multiset(Kept(waiting, bits)) + multiset(Freed(waiting, bits)) == multiset(waiting)
    ensures forall w :: w in Kept(waiting, bits) <==> w in waiting && !Matches(w, bits)
    ensures forall w :: w in Freed(waiting, bits) <==> w in waiting && Matches(w, bits)
  {
    hide Matches;
    if waiting != [] {
      KeptAndFreed(waiting[1..], bits);
      assert waiting == [waiting[0]] + waiting[1..];
    }
  }

  /** A bit is cleared exactly if some freed waiter asked for it. */
  lemma {:induction false} ToClearBit(waiting: seq<Waiter>, bits: Word, x: nat)
    ensures x in ToClear(waiting, bits) <==> exists w :: w in waiting && Clears(w, bits, x)
  {
    if waiting != [] {
      ToClearBit(waiting[1..], bits, x);
      assert x in ToClear(waiting, bits) <==> Clears(waiting[0], bits, x) || x in ToClear(waiting[1..], bits);
      assert waiting == [waiting[0]] + waiting[1..];
    }
  }

  predicate Clears(w: Waiter, bits: Word, x: nat) {
    Matches(w, bits) && Unpack(w.value).clear && x in Unpack(w.value).mask
  }

  lemma SameToClear(a: seq<Waiter>, b: seq<Waiter>, bits: Word)
    requires forall w :: w in a <==> w in b
    ensures ToClear(a, bits) == ToClear(b, bits)
  {
    forall x ensures x in ToClear(a, bits) <==> x in ToClear(b, bits) {
      ToClearBit(a, bits, x);
      ToClearBit(b, bits, x);
    }
  }

  /** The outcome of setting bits does not depend on the order of the list. */
  lemma SetIgnoresOrder(g: Group, h: Group, added: Word)
    requires multiset(g.waiting) == multiset(h.waiting)
    requires g.bits == h.bits && g.woken == h.woken
    ensures AfterSet(g, added).bits == AfterSet(h, added).bits
    ensures AfterSet(g, added).woken == AfterSet(h, added).woken
    ensures multiset(AfterSet(g, added).waiting) == multiset(AfterSet(h, added).waiting)
  {
    var bits := g.bits + added;
    SameMembers(g.waiting, h.waiting);
    KeptAndFreed(g.waiting, bits);
    KeptAndFreed(h.waiting, bits);
    SameToClear(g.waiting, h.waiting, bits);
    SameCounts(g.waiting, h.waiting, bits);
    hide Matches, ToClear, Kept, Freed, Marked, Wake;
    SameWake(g.woken, Freed(g.waiting, bits), Freed(h.waiting, bits), bits);
  }

  lemma SameWake(woken: map<nat, Word>, a: seq<Waiter>, b: seq<Waiter>, bits: Word)
    requires forall w :: w in a <==> w in b
    ensures Wake(woken, a, bits) == Wake(woken, b, bits)
  {
    hide Marked;
  }

  lemma SameMembers(a: seq<Waiter>, b: seq<Waiter>)
    requires multiset(a) == multiset(b)
    ensures forall w :: w in a <==> w in b
  {
    forall w ensures w in a <==> w in b {
      assert w in a <==> w in multiset(a);
      assert w in b <==> w in multiset(b);
    }
  }

  lemma SameCounts(a: seq<Waiter>, b: seq<Waiter>, bits: Word)
    requires multiset(a) == multiset(b)
    ensures multiset(Kept(a, bits)) == multiset(Kept(b, bits))
  {
    KeptAndFreed(a, bits);
    KeptAndFreed(b, bits);
    hide Matches, Kept, Freed;
    var ka, fa := multiset(Kept(a, bits)), multiset(Freed(a, bits));
    var kb, fb := multiset(Kept(b, bits)), multiset(Freed(b, bits));
    forall w: Waiter ensures ka[w] == kb[w] {
      assert w in ka <==> w in Kept(a, bits);
      assert w in fa <==> w in Freed(a, bits);
      assert w in kb <==> w in Kept(b, bits);
      assert w in fb <==> w in Freed(b, bits);
      assert (ka + fa)[w] == (kb + fb)[w];
    }
  }

  // ----- the calls

  predicate Enabled(g: Group, action: Action) {
    match action
    case SetBits(added) => added !! CONTROL_BYTES
    case ClearBits(clear) => clear !! CONTROL_BYTES
    case WaitBits(task, call, _) => call.mask !! CONTROL_BYTES && call.mask != {} && task !in g.calls
    case Sync(task, added, mask, _) =>
      added !! CONTROL_BYTES && mask !! CONTROL_BYTES && mask != {} && task !in g.calls
    case Expire(position) => position < |g.waiting|
    case Resume(task) => task in g.woken && task in g.calls
  }

  function Finish(g: Group, task: nat, call: Call, bits: Word, timedOut: bool): Group {
    g.(outcomes := g.outcomes + [Return(task, call, bits, timedOut)])
  }

  function Block(g: Group, task: nat, call: Call): Group {
    g.(waiting := g.waiting + [Waiter(task, Pack(call))], calls := g.calls[task := call])
  }

  function Apply(g: Group, action: Action): Group
    requires Enabled(g, action)
  {
    match action
    case SetBits(added) => AfterSet(g, added)
    case ClearBits(clear) => g.(bits := g.bits - clear)
    case WaitBits(task, call, block) =>
      if Satisfied(g.bits, call) then
        Finish(g.(bits := if call.clear then g.bits - call.mask else g.bits), task, call, g.bits, false)
      else if !block then Finish(g, task, call, g.bits, true)
      else Block(g, task, call)
    case Sync(task, added, mask, block) =>
      var call, after := Call(mask, true, true), AfterSet(g, added);
      if mask <= g.bits + added then Finish(after.(bits := after.bits - mask), task, call, g.bits + added, false)
      else if !block then Finish(after, task, call, after.bits, true)
      else Block(after, task, call)
    case Expire(position) =>
      var w := g.waiting[position];
      g.(waiting := g.waiting[..position] + g.waiting[position + 1..], woken := g.woken[w.task := w.value])
    case Resume(task) =>
      var value, call := g.woken[task], g.calls[task];
      var awake := g.(woken := g.woken - {task}, calls := g.calls - {task});
      if UNBLOCKED_BY_SET in value then Finish(awake, task, call, value - CONTROL_BYTES, false)
      else
        Finish(awake.(bits := if call.clear && Satisfied(g.bits, call) then g.bits - call.mask else g.bits),
               task, call, g.bits - CONTROL_BYTES, true)
  }

  // ----- what every call keeps

  ghost predicate Distinct(waiting: seq<Waiter>) {
    forall i, j :: 0 <= i < j < |waiting| ==> waiting[i].task != waiting[j].task
  }

  /** A task on the list waits for something that the bits do not give it. */
  ghost predicate StillWaits(g: Group, w: Waiter) {
    w.task in g.calls && w.task !in g.woken && w.value == Pack(g.calls[w.task]) && !Satisfied(g.bits, g.calls[w.task])
  }

  /** A task off the list carries either the mark and bits that satisfied it, or still its request. */
  ghost predicate WokenOk(g: Group, task: nat)
    requires task in g.woken
  {
    && task in g.calls
    && if UNBLOCKED_BY_SET in g.woken[task] then Satisfied(g.woken[task] - CONTROL_BYTES, g.calls[task])
       else g.woken[task] == Pack(g.calls[task])
  }

  ghost predicate CallOk(call: Call) {
    call.mask !! CONTROL_BYTES && call.mask != {}
  }

  ghost predicate OutcomeOk(r: Return) {
    !r.timedOut ==> Satisfied(r.bits, r.call)
  }

  ghost predicate Inv(g: Group) {
    && g.bits !! CONTROL_BYTES
    && Distinct(g.waiting)
    && (forall w :: w in g.waiting ==> StillWaits(g, w))
    && (forall t :: t in g.woken ==> WokenOk(g, t))
    && (forall t :: t in g.calls ==> CallOk(g.calls[t]))
    && (forall r :: r in g.outcomes ==> OutcomeOk(r))
  }

  lemma {:induction false} KeptDistinct(waiting: seq<Waiter>, bits: Word)
    requires Distinct(waiting)
    ensures Distinct(Kept(waiting, bits))
  {
    if waiting != [] {
      var kept := Kept(waiting[1..], bits);
      KeptDistinct(waiting[1..], bits);
      KeptAndFreed(waiting[1..], bits);
      hide Matches;
      forall i | 0 <= i < |kept| ensures kept[i].task != waiting[0].task {
        assert kept[i] in waiting[1..];
        var j :| 0 <= j < |waiting[1..]| && waiting[1..][j] == kept[i];
        assert waiting[j + 1] == kept[i];
      }
    }
  }

  /** A call frees the tasks whose condition has come true, and those only. */
  lemma SetFreesExactly(g: Group, added: Word)
    requires Inv(g) && added !! CONTROL_BYTES
    ensures var after, bits := AfterSet(g, added), g.bits + added;
            && (forall w :: w in after.waiting <==> w in g.waiting && !Satisfied(bits, g.calls[w.task]))
            && (forall w :: w in g.waiting && Satisfied(bits, g.calls[w.task]) ==>
                  w.task in after.woken && after.woken[w.task] == Marked(bits))
            && (forall t :: t in g.woken ==> t in after.woken && after.woken[t] == g.woken[t])
            && (forall t :: t in after.woken && t !in g.woken ==>
                  exists w :: w in g.waiting && w.task == t && Satisfied(bits, g.calls[t]))
  {
    var bits := g.bits + added;
    forall w | w in g.waiting ensures Matches(w, bits) <==> Satisfied(bits, g.calls[w.task]) {
      UnpackPack(g.calls[w.task]);
    }
    KeptAndFreed(g.waiting, bits);
    hide Matches, Satisfied, Kept, Freed, ToClear, Marked;
  }

  lemma SetKeepsInv(g: Group, added: Word)
    requires Inv(g) && added !! CONTROL_BYTES
    ensures Inv(AfterSet(g, added))
  {
    hide ToClear, Kept, Freed, Pack, Matches, Satisfied, Marked, StillWaits, WokenOk;
    KeptDistinct(g.waiting, g.bits + added);
    SetKeepsWaiting(g, added);
    SetKeepsWoken(g, added);
  }

  lemma SetKeepsWaiting(g: Group, added: Word)
    requires Inv(g) && added !! CONTROL_BYTES
    ensures forall w :: w in AfterSet(g, added).waiting ==> StillWaits(AfterSet(g, added), w)
  {
    hide ToClear, Kept, Freed, Pack, Matches, Satisfied, Marked;
    var after, bits := AfterSet(g, added), g.bits + added;
    SetFreesExactly(g, added);
    KeptAndFreed(g.waiting, bits);
    assert after.bits <= bits;
    forall w | w in after.waiting ensures StillWaits(after, w) {
      assert StillWaits(g, w);
      if Satisfied(after.bits, g.calls[w.task]) {
        FewerBits(bits, after.bits, g.calls[w.task]);
      }
    }
  }

  lemma SetKeepsWoken(g: Group, added: Word)
    requires Inv(g) && added !! CONTROL_BYTES
    ensures forall t :: t in AfterSet(g, added).woken ==> WokenOk(AfterSet(g, added), t)
  {
    hide ToClear, Kept, Freed, Pack, Matches, Satisfied, Marked;
    var after, bits := AfterSet(g, added), g.bits + added;
    SetFreesExactly(g, added);
    UnmarkMarked(bits);
    forall t | t in after.woken ensures WokenOk(after, t) {
      if t in g.woken {
        assert WokenOk(g, t);
      }
    }
  }

  lemma FinishKeepsInv(g: Group, task: nat, call: Call, bits: Word, timedOut: bool)
    requires Inv(g) && (!timedOut ==> Satisfied(bits, call))
    ensures Inv(Finish(g, task, call, bits, timedOut))
  {
    hide Satisfied;
  }

  lemma BlockKeepsInv(g: Group, task: nat, call: Call)
    requires Inv(g) && CallOk(call) && task !in g.calls && !Satisfied(g.bits, call)
    ensures Inv(Block(g, task, call))
  {
    hide Satisfied, Pack;
    var after := Block(g, task, call);
    forall w | w in g.waiting ensures StillWaits(after, w) && w.task != task {
      assert StillWaits(g, w);
    }
    forall t | t in g.woken ensures WokenOk(after, t) && t != task {
      assert WokenOk(g, t);
    }
    assert forall i :: 0 <= i < |g.waiting| ==> g.waiting[i] in g.waiting;
  }

  lemma ClearKeepsInv(g: Group, clear: Word)
    requires Inv(g)
    ensures Inv(g.(bits := g.bits - clear))
  {
    var after := g.(bits := g.bits - clear);
    forall w | w in g.waiting ensures StillWaits(after, w) {
      hide Pack;
      assert StillWaits(g, w);
      if Satisfied(after.bits, g.calls[w.task]) {
        FewerBits(g.bits, after.bits, g.calls[w.task]);
      }
    }
    hide Satisfied, Pack;
  }

  lemma ExpireKeepsInv(g: Group, position: nat)
    requires Inv(g) && position < |g.waiting|
    ensures Inv(Apply(g, Expire(position)))
  {
    var w, after := g.waiting[position], Apply(g, Expire(position));
    assert StillWaits(g, w);
    UnpackPack(g.calls[w.task]);
    hide Satisfied, Pack;
    forall v | v in after.waiting ensures StillWaits(after, v) {
      assert StillWaits(g, v);
      var i :| 0 <= i < |after.waiting| && after.waiting[i] == v;
      assert v == g.waiting[if i < position then i else i + 1];
    }
  }

  lemma ResumeKeepsInv(g: Group, task: nat)
    requires Inv(g) && Enabled(g, Resume(task))
    ensures Inv(Apply(g, Resume(task)))
  {
    var value, call := g.woken[task], g.calls[task];
    var awake := g.(woken := g.woken - {task}, calls := g.calls - {task});
    assert WokenOk(g, task);
    assert Inv(awake) by {
      hide Satisfied, Pack;
      forall w | w in awake.waiting ensures StillWaits(awake, w) {
        assert StillWaits(g, w);
      }
      forall t | t in awake.woken ensures WokenOk(awake, t) {
        assert WokenOk(g, t);
      }
    }
    ClearKeepsInv(awake, call.mask);
    hide Inv, Satisfied;
    FinishAll(awake, task, call, value);
  }

  lemma FinishAll(awake: Group, task: nat, call: Call, value: Word)
    requires Inv(awake) && Inv(awake.(bits := awake.bits - call.mask))
    requires UNBLOCKED_BY_SET in value ==> Satisfied(value - CONTROL_BYTES, call)
    ensures UNBLOCKED_BY_SET in value ==> Inv(Finish(awake, task, call, value - CONTROL_BYTES, false))
    ensures Inv(Finish(awake, task, call, awake.bits - CONTROL_BYTES, true))
    ensures Inv(Finish(awake.(bits := awake.bits - call.mask), task, call, awake.bits - CONTROL_BYTES, true))
  {
    if UNBLOCKED_BY_SET in value {
      FinishKeepsInv(awake, task, call, value - CONTROL_BYTES, false);
    }
    FinishKeepsInv(awake, task, call, awake.bits - CONTROL_BYTES, true);
    FinishKeepsInv(awake.(bits := awake.bits - call.mask), task, call, awake.bits - CONTROL_BYTES, true);
  }

  lemma WaitKeepsInv(g: Group, task: nat, call: Call, block: bool)
    requires Inv(g) && Enabled(g, WaitBits(task, call, block))
    ensures Inv(Apply(g, WaitBits(task, call, block)))
  {
    ClearKeepsInv(g, call.mask);
    hide Inv, Satisfied;
    if Satisfied(g.bits, call) {
      FinishKeepsInv(if call.clear then g.(bits := g.bits - call.mask) else g, task, call, g.bits, false);
    } else if block {
      BlockKeepsInv(g, task, call);
    } else {
      FinishKeepsInv(g, task, call, g.bits, true);
    }
  }

  lemma SyncKeepsInv(g: Group, task: nat, added: Word, mask: Word, block: bool)
    requires Inv(g) && Enabled(g, Sync(task, added, mask, block))
    ensures Inv(Apply(g, Sync(task, added, mask, block)))
  {
    var call, after := Call(mask, true, true), AfterSet(g, added);
    SetKeepsInv(g, added);
    assert mask <= g.bits + added <==> Satisfied(g.bits + added, call);
    assert Satisfied(after.bits, call) ==> mask <= g.bits + added;
    ClearKeepsInv(after, mask);
    hide Inv, Satisfied, AfterSet;
    if mask <= g.bits + added {
      FinishKeepsInv(after.(bits := after.bits - mask), task, call, g.bits + added, false);
    } else if block {
      BlockKeepsInv(after, task, call);
    } else {
      FinishKeepsInv(after, task, call, after.bits, true);
    }
  }

  lemma ApplyKeepsInv(g: Group, action: Action)
    requires Inv(g) && Enabled(g, action)
    ensures Inv(Apply(g, action))
  {
    match action
    case SetBits(added) => SetKeepsInv(g, added);
    case ClearBits(clear) => ClearKeepsInv(g, clear);
    case WaitBits(task, call, block) => WaitKeepsInv(g, task, call, block);
    case Sync(task, added, mask, block) => SyncKeepsInv(g, task, added, mask, block);
    case Expire(position) => ExpireKeepsInv(g, position);
    case Resume(task) => ResumeKeepsInv(g, task);
  }

  ghost predicate Runs(g: Group, actions: seq<Action>)
    decreases |actions|
  {
    actions == [] || (Enabled(g, actions[0]) && Runs(Apply(g, actions[0]), actions[1..]))
  }

  ghost function After(g: Group, actions: seq<Action>): Group
    requires Runs(g, actions)
    decreases |actions|
  {
    if actions == [] then g else After(Apply(g, actions[0]), actions[1..])
  }

  const NEW_GROUP: Group := Group({}, [], map[], map[], [])

  lemma {:induction false} RunKeepsInv(g: Group, actions: seq<Action>)
    requires Inv(g) && Runs(g, actions)
    ensures Inv(After(g, actions))
    decreases |actions|
  {
    if actions != [] {
      ApplyKeepsInv(g, actions[0]);
      RunKeepsInv(Apply(g, actions[0]), actions[1..]);
    }
  }

  /** Whatever calls have been made: no task waits for what is already there, and every call that returned without a
      time-out returned bits that fulfil its condition. */
  lemma NoSatisfiedTaskWaits(actions: seq<Action>)
    requires Runs(NEW_GROUP, actions)
    ensures var g := After(NEW_GROUP, actions);
            && (forall w :: w in g.waiting ==> w.task in g.calls && !Satisfied(g.bits, g.calls[w.task]))
            && (forall r :: r in g.outcomes && !r.timedOut ==> Satisfied(r.bits, r.call))
  {
    RunKeepsInv(NEW_GROUP, actions);
    hide Satisfied;
    var g := After(NEW_GROUP, actions);
    assert forall w :: w in g.waiting ==> StillWaits(g, w);
    assert forall r :: r in g.outcomes ==> OutcomeOk(r);
  }
}
