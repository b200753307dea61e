/** The framework's message-node pool, its posted-message FIFO and the worker
    thread that drains it. */
module Frw {
  import opened Common
  import NumberTheory
  import opened RingBuffer

  const POOL_LEN: nat := 16
  const FIFO_LEN: nat := 32
  const NODE_SIZE: nat := 40

  // ----- critical sections -----

  datatype MsgNode = MsgNode(data: nat, rsp: nat, dataLen: nat, rspBufLen: nat, rspLen: nat, flags: nat,
                             next: nat, prev: nat, cbReturn: int, msgId: nat, bits: nat, vapId: nat,
                             timeOut: nat, sequence: nat, waitFail: int)

  const ZEROED := MsgNode(0, 0, 0, 0, 0, 0, 0, 0, 0, 0, 0, 0, 0, 0, 0)

  /** A node as fetched: zero but for the used bit 3 and its index in the high nibble. */
  function FreshNode(index: nat): MsgNode {
    ZEROED.(bits := 0x08 + 16 * index)
  }

  type PoolUsed = s: seq<bool> | |s| == POOL_LEN witness seq(POOL_LEN, _ => false)
  type PoolNodes = s: seq<MsgNode> | |s| == POOL_LEN witness seq(POOL_LEN, _ => ZEROED)

  /** The address of the first pool node, which nodes are taken, what they hold, and
      the pointers posted but not popped. */
  datatype Core = Core(base: nat, used: PoolUsed, nodes: PoolNodes, fifo: seq<nat>)

  function NewCore(base: nat): Core {
    Core(base, seq(POOL_LEN, _ => false), seq(POOL_LEN, _ => ZEROED), [])
  }

  function Address(base: nat, index: nat): nat {
    base + index * NODE_SIZE
  }

  /** The pool node a pointer is the start of. */
  function PoolIndex(base: nat, node: nat): Option<nat> {
    if node < base then None
    else if (node - base) / NODE_SIZE < POOL_LEN && (node - base) % NODE_SIZE == 0 then Some((node - base) / NODE_SIZE)
    else None
  }

  lemma PointersNameNodes(base: nat, node: nat, index: nat)
    ensures PoolIndex(base, node) == Some(index) <==> index < POOL_LEN && node == Address(base, index)
  {
  }

  function FirstUnused(used: seq<bool>): (n: nat)
    ensures n <= |used| && (forall i :: 0 <= i < n ==> used[i]) && (n < |used| ==> !used[n])
  {
    if used == [] || !used[0] then 0 else 1 + FirstUnused(used[1..])
  }

  function FetchSpec(c: Core): (Core, nat) {
    var i := FirstUnused(c.used);
    if i == POOL_LEN then (c, 0)
    else (c.(used := c.used[i := true], nodes := c.nodes[i := FreshNode(i)]), Address(c.base, i))
  }

  function FreeSpec(c: Core, node: nat): Core {
    var i := PoolIndex(c.base, node);
    if node != 0 && i.Some? then c.(used := c.used[i.value := false]) else c
  }

  function PostSpec(c: Core, node: nat): (Core, bool) {
    if |c.fifo| >= FIFO_LEN then (c, false) else (c.(fifo := c.fifo + [node]), true)
  }

  function PopSpec(c: Core): (Core, nat) {
    if c.fifo == [] then (c, 0) else (c.(fifo := c.fifo[1..]), c.fifo[0])
  }

  /** One pass of the worker's inner loop: it ends at the first null. */
  function DrainSpec(c: Core): (seq<nat>, Core)
    decreases |c.fifo|
  {
    var (rest, node) := PopSpec(c);
    if node == 0 then ([], rest) else ([node] + DrainSpec(rest).0, DrainSpec(rest).1)
  }

  /** Null never being queued, one pass hands over the whole queue in order. */
  lemma {:induction false} DrainTakesAll(c: Core)
    requires 0 !in c.fifo
    ensures DrainSpec(c).0 == c.fifo && DrainSpec(c).1 == c.(fifo := [])
    decreases |c.fifo|
  {
    if c.fifo == [] {
    } else {
      assert c.fifo[0] in c.fifo;
      DrainTakesAll(c.(fifo := c.fifo[1..]));
    }
  }

  /** A 32-bit counter raised `n` times. */
  function Advance(count: u32, n: nat): u32 {
    if n == 0 then count else Increment(Advance(count, n - 1))
  }

  lemma {:induction false} AdvanceWraps(count: u32, n: nat)
    ensures Advance(count, n) == (count + n) % WORDS
  {
    if n == 0 {
      NumberTheory.SmallRemainder(count, WORDS);
    } else {
      AdvanceWraps(count, n - 1);
      NumberTheory.NextWord(count + n - 1, WORDS);
    }
  }

  lemma Regroup(done: seq<nat>, node: nat, all: seq<nat>, rest: seq<nat>)
    requires all == [node] + rest
    ensures done + all == done + [node] + rest
  {
  }

  class FrwState {
    const base: nat
    const pool: array<MsgNode>
    const poolUsed: array<bool>
    const fifo: array<nat>
    var head: nat
    var count: nat
    var dispatched: u32

    ghost predicate Valid()
      reads this
    {
      && pool.Length == POOL_LEN && poolUsed.Length == POOL_LEN
      && fifo.Length == FIFO_LEN && head < FIFO_LEN && count <= FIFO_LEN
    }

    ghost function View(): Core
      requires Valid()
      reads this, pool, poolUsed, fifo
    {
      Core(base, poolUsed[..], pool[..], Window(fifo[..], head, count))
    }

    constructor (address: nat)
      ensures Valid() && fresh(pool) && fresh(poolUsed) && fresh(fifo) && dispatched == 0
      ensures View() == NewCore(address)
    {
      base := address;
      pool := new MsgNode[POOL_LEN](_ => ZEROED);
      poolUsed := new bool[POOL_LEN](_ => false);
      fifo := new nat[FIFO_LEN](_ => 0);
      head, count, dispatched := 0, 0, 0;
      new;
      assert poolUsed[..] == seq(POOL_LEN, _ => false) && pool[..] == seq(POOL_LEN, _ => ZEROED);
    }

    /** The address of a node, or null. */
    method FetchMsgNode() returns (node: nat)
      requires Valid()
      modifies pool, poolUsed
      ensures Valid() && (View(), node) == FetchSpec(old(View()))
      ensures (forall i :: 0 <= i < POOL_LEN ==> old(poolUsed[i])) ==> node == 0 && View() == old(View())
      ensures !(forall i :: 0 <= i < POOL_LEN ==> old(poolUsed[i])) ==>
                exists i :: 0 <= i < POOL_LEN && node == Address(base, i) && !old(poolUsed[i]) && poolUsed[i] && pool[i] == FreshNode(i)
    {
      for i := 0 to POOL_LEN
        invariant poolUsed[..] == old(poolUsed[..]) && pool[..] == old(pool[..])
        invariant forall j :: 0 <= j < i ==> poolUsed[j]
      {
        if !poolUsed[i] {
          poolUsed[i] := true;
          pool[i] := ZEROED;
          pool[i] := pool[i].(bits := 0x08 + 16 * i);
          assert pool[..] == old(pool[..])[i := FreshNode(i)] && poolUsed[..] == old(poolUsed[..])[i := true];
          return base + i * NODE_SIZE;
        }
      }
      return 0;
    }

    method FreeMsgNode(node: nat)
      requires Valid()
      modifies poolUsed
      ensures Valid() && View() == FreeSpec(old(View()), node)
    {
      if node == 0 || node < base {
        return;
      }
      var index := (node - base) / NODE_SIZE;
      if index < POOL_LEN && (node - base) % NODE_SIZE == 0 {
        poolUsed[index] := false;
      }
    }

    method Post(node: nat) returns (ok: bool)
      requires Valid()
      modifies this, fifo
      ensures dispatched == old(dispatched)
      ensures Valid() && (View(), ok) == PostSpec(old(View()), node)
    {
      if count >= FIFO_LEN {
        return false;
      }
      var tail := (head + count) % FIFO_LEN;
      Appends(fifo[..], head, count, node);
      fifo[tail] := node;
      count := count + 1;
      return true;
    }

    method Pop() returns (node: nat)
      requires Valid()
      modifies this
      ensures dispatched == old(dispatched) && count == old(count) - One(old(count) > 0)
      ensures Valid() && (View(), node) == PopSpec(old(View()))
    {
      if count == 0 {
        return 0;
      }
      node := fifo[head];
      Removes(fifo[..], head, count, node);
      assert fifo[..][head := node] == fifo[..];
      head := (head + 1) % FIFO_LEN;
      count := count - 1;
    }

    /** The worker's inner loop; `messages` is what it hands to the handler. */
    method Drain() returns (messages: seq<nat>)
      requires Valid()
      modifies this
      ensures Valid() && messages == DrainSpec(old(View())).0 && View() == DrainSpec(old(View())).1
      ensures dispatched == Advance(old(dispatched), |messages|)
    {
      messages := [];
      while true
        invariant Valid()
        invariant messages + DrainSpec(View()).0 == DrainSpec(old(View())).0
        invariant DrainSpec(View()).1 == DrainSpec(old(View())).1
        invariant dispatched == Advance(old(dispatched), |messages|)
        decreases count
      {
        ghost var before := View();
        var node := Pop();
        if node == 0 {
          return;
        }
        Regroup(messages, node, DrainSpec(before).0, DrainSpec(View()).0);
        messages := messages + [node];
        dispatched := Increment(dispatched);
      }
    }
  }

  // ----- posters, the semaphore and the worker -----

  datatype Worker = Starting | Parked | Woken | Draining | Handling(node: nat) | Stopped

  /** `signalling` calls changed the state and did not raise the semaphore yet.
      `accepted` and `handled` are the pointers ever queued and ever dispatched;
      `sent` and `received` what those nodes held when queued and when dispatched;
      `offered` says of each dispatched one whether a handler was registered. */
  datatype Sys = Sys(core: Core, sem: nat, signalling: nat, running: bool, handler: bool, worker: Worker,
                     dispatched: u32, accepted: seq<nat>, handled: seq<nat>,
                     sent: seq<MsgNode>, received: seq<MsgNode>, offered: seq<bool>)

  datatype Step =
    | Fetch
    | Write(node: nat, content: MsgNode)
    | Free(node: nat)
    | Post(node: nat)
    | Signal
    | SetHandler(present: bool)
    | Begin
    | Down
    | Timeout
    | Check
    | Pop
    | Dispatch
    | Stop

  function Init(base: nat): Sys {
    Sys(NewCore(base), 0, 0, false, false, Starting, 0, [], [], [], [], [])
  }

  /** What a pointer's node holds; only pool nodes are modelled. */
  function Content(c: Core, node: nat): MsgNode {
    if PoolIndex(c.base, node).Some? then c.nodes[PoolIndex(c.base, node).value] else ZEROED
  }

  /** A caller fills in a node through its pointer. */
  function WriteNode(c: Core, node: nat, content: MsgNode): Core {
    var i := PoolIndex(c.base, node);
    if i.Some? then c.(nodes := c.nodes[i.value := content]) else c
  }

  /** A disabled step leaves the state alone.  Null is refused before it reaches the
      FIFO. */
  function Next(s: Sys, step: Step): Sys {
    match step
    case Fetch => s.(core := FetchSpec(s.core).0)
    case Write(node, content) => s.(core := WriteNode(s.core, node, content))
    case Free(node) => s.(core := FreeSpec(s.core, node))
    case Post(node) =>
      if node == 0 || !PostSpec(s.core, node).1 then s
      else s.(core := PostSpec(s.core, node).0, signalling := s.signalling + 1,
              accepted := s.accepted + [node], sent := s.sent + [Content(s.core, node)])
    case Signal => if s.signalling == 0 then s else s.(signalling := s.signalling - 1, sem := s.sem + 1)
    case SetHandler(present) => s.(handler := present)
    case Stop => s.(running := false, signalling := s.signalling + 1)
    case _ => WorkerNext(s, step)
  }

  function WorkerNext(s: Sys, step: Step): Sys {
    match step
    case Begin => if s.worker == Starting then s.(running := true, worker := Parked) else s
    case Down => if s.worker == Parked && s.sem > 0 then s.(sem := s.sem - 1, worker := Woken) else s
    case Timeout => if s.worker == Parked then s.(worker := Woken) else s
    case Check => if s.worker == Woken then s.(worker := if s.running then Draining else Stopped) else s
    case Pop =>
      if s.worker != Draining then s
      else if s.core.fifo == [] then s.(worker := Parked)
      else s.(core := PopSpec(s.core).0, worker := Handling(PopSpec(s.core).1))
    case Dispatch =>
      if !s.worker.Handling? then s
      else s.(worker := Draining, dispatched := Increment(s.dispatched),
              handled := s.handled + [s.worker.node], received := s.received + [Content(s.core, s.worker.node)],
              offered := s.offered + [s.handler])
    case _ => s
  }

  function Run(s: Sys, trace: seq<Step>): Sys {
    if trace == [] then s else Next(Run(s, trace[..|trace| - 1]), trace[|trace| - 1])
  }

  function InHand(s: Sys): seq<nat> {
    if s.worker.Handling? then [s.worker.node] else []
  }

  ghost predicate OrderInv(s: Sys) {
    && s.accepted == s.handled + InHand(s) + s.core.fifo
    && |s.core.fifo| <= FIFO_LEN
    && |s.sent| == |s.accepted| && |s.received| == |s.offered| == |s.handled|
    && s.dispatched == Advance(0, |s.handled|)
  }

  ghost predicate WakeInv(s: Sys) {
    (s.worker.Parked? || s.worker.Starting?) && s.core.fifo != [] ==> s.sem + s.signalling > 0
  }

  lemma StepKeepsOrder(s: Sys, step: Step)
    requires OrderInv(s)
    ensures OrderInv(Next(s, step))
  {
    if step.Dispatch? {
      DispatchKeepsOrder(s);
    } else if step.Pop? {
      PopKeepsOrder(s);
    }
  }

  lemma DispatchKeepsOrder(s: Sys)
    requires OrderInv(s)
    ensures OrderInv(Next(s, Dispatch))
  {
    if s.worker.Handling? {
      assert s.handled + [s.worker.node] + s.core.fifo == (s.handled + [s.worker.node]) + [] + s.core.fifo;
    }
  }

  lemma PopKeepsOrder(s: Sys)
    requires OrderInv(s)
    ensures OrderInv(Next(s, Pop))
  {
    if s.worker == Draining && s.core.fifo != [] {
      assert s.core.fifo == [s.core.fifo[0]] + s.core.fifo[1..];
    }
  }

  lemma StepKeepsWake(s: Sys, step: Step)
    requires WakeInv(s)
    ensures WakeInv(Next(s, step))
  {
  }

  lemma {:induction false} RunKeeps(base: nat, trace: seq<Step>)
    ensures OrderInv(Run(Init(base), trace)) && WakeInv(Run(Init(base), trace))
  {
    if trace == [] {
    } else {
      var before := trace[..|trace| - 1];
      RunKeeps(base, before);
      StepKeepsOrder(Run(Init(base), before), trace[|trace| - 1]);
      StepKeepsWake(Run(Init(base), before), trace[|trace| - 1]);
    }
  }

  /** In every reachable state the accepted messages are the dispatched ones, then
      the one in the worker's hands, then the queued ones: posting order is kept
      and nothing is lost or dispatched twice. */
  lemma PostingOrderKept(base: nat, trace: seq<Step>)
    ensures var s := Run(Init(base), trace);
            s.accepted == s.handled + InHand(s) + s.core.fifo && s.dispatched == |s.handled| % WORDS
  {
    RunKeeps(base, trace);
    OrderMeans(Run(Init(base), trace));
  }

  lemma OrderMeans(s: Sys)
    requires OrderInv(s)
    ensures s.accepted == s.handled + InHand(s) + s.core.fifo && s.dispatched == |s.handled| % WORDS
  {
    AdvanceWraps(0, |s.handled|);
  }

  /** A worker never sleeps on a queued message with nobody about to wake it. */
  lemma NoMessageSleeps(base: nat, trace: seq<Step>)
    ensures var s := Run(Init(base), trace);
            s.worker.Parked? && s.core.fifo != [] ==> s.sem > 0 || s.signalling > 0
  {
    RunKeeps(base, trace);
  }

  // ----- nodes in the callers' hands -----

  /** A fetch takes a node that was free, hands it out zeroed but for its mark, and
      leaves the other nodes alone; it returns null exactly when none is free. */
  lemma FetchTakesFreeNode(c: Core)
    requires c.base > 0
    ensures var (later, node) := FetchSpec(c);
            && (node == 0 <==> forall i :: 0 <= i < POOL_LEN ==> c.used[i])
            && (node == 0 ==> later == c)
            && (node != 0 ==>
                  && PoolIndex(c.base, node).Some?
                  && var i := PoolIndex(c.base, node).value;
                     && !c.used[i] && later.used[i]
                     && later.nodes[i].bits == 8 + 16 * i && later.nodes[i].(bits := 0) == ZEROED
                     && (forall j :: 0 <= j < POOL_LEN && j != i ==> later.used[j] == c.used[j] && later.nodes[j] == c.nodes[j])
                     && later.base == c.base && later.fifo == c.fifo)
  {
    var i := FirstUnused(c.used);
    PointersNameNodes(c.base, Address(c.base, i), i);
  }

  /** What the fetch at a point of a run returns. */
  function Fetched(base: nat, trace: seq<Step>, i: nat): nat
    requires i <= |trace|
  {
    FetchSpec(Run(Init(base), trace[..i]).core).1
  }

  /** The nodes fetched and not freed since. */
  function Out(base: nat, trace: seq<Step>): set<nat> {
    if trace == [] then {}
    else
      var before := trace[..|trace| - 1];
      match trace[|trace| - 1]
      case Fetch => Out(base, before) + (if Fetched(base, before, |before|) == 0 then {} else {Fetched(base, before, |before|)})
      case Free(node) => Out(base, before) - {node}
      case _ => Out(base, before)
  }

  /** A node is marked as used. */
  predicate InUse(c: Core, node: nat) {
    PoolIndex(c.base, node).Some? && c.used[PoolIndex(c.base, node).value]
  }

  lemma FetchUses(c: Core, node: nat)
    requires c.base > 0
    ensures InUse(FetchSpec(c).0, node) <==> InUse(c, node) || (node != 0 && node == FetchSpec(c).1)
  {
    FetchTakesFreeNode(c);
    if PoolIndex(c.base, node).Some? {
      PointersNameNodes(c.base, node, PoolIndex(c.base, node).value);
    }
    if FetchSpec(c).1 != 0 {
      PointersNameNodes(c.base, FetchSpec(c).1, PoolIndex(c.base, FetchSpec(c).1).value);
    }
  }

  lemma FreeUnuses(c: Core, freed: nat, node: nat)
    requires c.base > 0
    ensures InUse(FreeSpec(c, freed), node) <==> InUse(c, node) && node != freed
  {
    if PoolIndex(c.base, node).Some? {
      PointersNameNodes(c.base, node, PoolIndex(c.base, node).value);
    }
    if PoolIndex(c.base, freed).Some? {
      PointersNameNodes(c.base, freed, PoolIndex(c.base, freed).value);
    }
  }

  lemma StepUses(s: Sys, step: Step, node: nat)
    requires s.core.base > 0
    ensures Next(s, step).core.base == s.core.base
    ensures InUse(Next(s, step).core, node)
            <==> (InUse(s.core, node) && step != Free(node)) || (step == Fetch && node != 0 && node == FetchSpec(s.core).1)
  {
    if step.Fetch? {
      FetchUses(s.core, node);
    } else if step.Free? {
      FreeUnuses(s.core, step.node, node);
    }
  }

  /** In every run the nodes marked as used are those fetched and not freed since. */
  lemma {:induction false} OutAreInUse(base: nat, trace: seq<Step>)
    requires base > 0
    ensures Run(Init(base), trace).core.base == base
    ensures forall node :: node in Out(base, trace) <==> InUse(Run(Init(base), trace).core, node)
  {
    if trace == [] {
    } else {
      var before, step := trace[..|trace| - 1], trace[|trace| - 1];
      OutAreInUse(base, before);
      assert before[..|before|] == before;
      forall node: nat
        ensures node in Out(base, trace) <==> InUse(Run(Init(base), trace).core, node)
      {
        StepUses(Run(Init(base), before), step, node);
      }
      StepUses(Run(Init(base), before), step, 0);
    }
  }

  /** In every run a fetch returns null exactly when all sixteen nodes are out, and
      otherwise a node that is not out. */
  lemma FetchIsExclusive(base: nat, trace: seq<Step>)
    requires base > 0
    ensures var node := Fetched(base, trace, |trace|);
            && (node == 0 <==> forall i :: 0 <= i < POOL_LEN ==> Address(base, i) in Out(base, trace))
            && (node != 0 ==> node !in Out(base, trace) && PoolIndex(base, node).Some?)
  {
    OutAreInUse(base, trace);
    assert trace[..|trace|] == trace;
    var c := Run(Init(base), trace).core;
    FetchTakesFreeNode(c);
    forall i | 0 <= i < POOL_LEN ensures InUse(c, Address(base, i)) <==> c.used[i] {
      PointersNameNodes(base, Address(base, i), i);
    }
  }

  lemma {:induction false} StaysOut(base: nat, trace: seq<Step>, i: nat, j: nat)
    requires base > 0 && i < j <= |trace| && trace[i] == Fetch && Fetched(base, trace, i) != 0
    requires forall k :: i < k < j ==> trace[k] != Free(Fetched(base, trace, i))
    ensures Fetched(base, trace, i) in Out(base, trace[..j])
    decreases j
  {
    var upto := trace[..j];
    assert upto[..|upto| - 1] == trace[..j - 1];
    if j == i + 1 {
      assert trace[..i][..i] == trace[..i];
    } else {
      StaysOut(base, trace, i, j - 1);
    }
  }

  /** In every run, two fetches return the same node only if it was freed in between. */
  lemma NoNodeTwice(base: nat, trace: seq<Step>, i: nat, j: nat)
    requires base > 0 && i < j < |trace| && trace[i] == Fetch && trace[j] == Fetch
    requires Fetched(base, trace, i) == Fetched(base, trace, j) != 0
    ensures exists k :: i < k < j && trace[k] == Free(Fetched(base, trace, i))
  {
    if forall k :: i < k < j ==> trace[k] != Free(Fetched(base, trace, i)) {
      StaysOut(base, trace, i, j);
      assert trace[..j][..j] == trace[..j];
      FetchIsExclusive(base, trace[..j]);
    }
  }

  // ----- what a node carries -----

  /** What a pool node holds after a run: what was last written to it, or the fresh
      node it was fetched as since. */
  function LastContent(base: nat, trace: seq<Step>, node: nat): MsgNode
    requires PoolIndex(base, node).Some?
  {
    if trace == [] then ZEROED
    else
      var before, step := trace[..|trace| - 1], trace[|trace| - 1];
      if step.Write? && step.node == node then step.content
      else if step.Fetch? && Fetched(base, before, |before|) == node then FreshNode(PoolIndex(base, node).value)
      else LastContent(base, before, node)
  }

  lemma StepWrites(s: Sys, step: Step, node: nat)
    requires s.core.base > 0 && PoolIndex(s.core.base, node).Some?
    ensures Content(Next(s, step).core, node)
            == (if step.Write? && step.node == node then step.content
                else if step.Fetch? && FetchSpec(s.core).1 == node then FreshNode(PoolIndex(s.core.base, node).value)
                else Content(s.core, node))
  {
    var base := s.core.base;
    PointersNameNodes(base, node, PoolIndex(base, node).value);
    if step.Write? && PoolIndex(base, step.node).Some? {
      PointersNameNodes(base, step.node, PoolIndex(base, step.node).value);
    } else if step.Fetch? {
      PointersNameNodes(base, Address(base, FirstUnused(s.core.used)), FirstUnused(s.core.used));
    }
  }

  lemma {:induction false} NodeHoldsLastContent(base: nat, trace: seq<Step>, node: nat)
    requires base > 0 && PoolIndex(base, node).Some?
    ensures Content(Run(Init(base), trace).core, node) == LastContent(base, trace, node)
  {
    OutAreInUse(base, trace);
    if trace == [] {
    } else {
      var before, step := trace[..|trace| - 1], trace[|trace| - 1];
      NodeHoldsLastContent(base, before, node);
      OutAreInUse(base, before);
      assert before[..|before|] == before;
      StepWrites(Run(Init(base), before), step, node);
    }
  }

  /** A post that is accepted sends what was last written to the node. */
  lemma PostSendsLastContent(base: nat, trace: seq<Step>, node: nat)
    requires base > 0 && PoolIndex(base, node).Some?
    ensures var s := Run(Init(base), trace);
            var t := Next(s, Post(node));
            if |s.core.fifo| < FIFO_LEN
            then t.accepted == s.accepted + [node] && t.sent == s.sent + [LastContent(base, trace, node)]
            else t == s
  {
    NodeHoldsLastContent(base, trace, node);
  }

  /** Null never gets into the FIFO, so every pass of the worker takes all there is. */
  lemma {:induction false} NullIsNeverQueued(base: nat, trace: seq<Step>)
    ensures 0 !in Run(Init(base), trace).accepted
    ensures var c := Run(Init(base), trace).core; DrainSpec(c).0 == c.fifo && DrainSpec(c).1 == c.(fifo := [])
  {
    if trace != [] {
      NullIsNeverQueued(base, trace[..|trace| - 1]);
      AcceptedGrows(Run(Init(base), trace[..|trace| - 1]), trace[|trace| - 1]);
    }
    RunKeeps(base, trace);
    var s := Run(Init(base), trace);
    assert forall node :: node in s.core.fifo ==> node in s.accepted;
    DrainTakesAll(s.core);
  }

  lemma AcceptedGrows(s: Sys, step: Step)
    ensures Next(s, step).accepted == s.accepted
         || (step.Post? && step.node != 0 && Next(s, step).accepted == s.accepted + [step.node])
  {
  }

  // ----- the handler -----

  /** The handler last registered. */
  function HandlerAfter(trace: seq<Step>): bool {
    if trace == [] then false
    else if trace[|trace| - 1].SetHandler? then trace[|trace| - 1].present
    else HandlerAfter(trace[..|trace| - 1])
  }

  /** For each dispatch of a run, whether a handler was registered at that moment. */
  function Offers(base: nat, trace: seq<Step>): seq<bool> {
    if trace == [] then []
    else
      var before := trace[..|trace| - 1];
      if trace[|trace| - 1].Dispatch? && Run(Init(base), before).worker.Handling?
      then Offers(base, before) + [HandlerAfter(before)] else Offers(base, before)
  }

  /** In every run each dispatched message was offered exactly to the handler registered
      last before it. */
  lemma {:induction false} OfferedToLastHandler(base: nat, trace: seq<Step>)
    ensures Run(Init(base), trace).handler == HandlerAfter(trace)
    ensures Run(Init(base), trace).offered == Offers(base, trace)
    ensures |Run(Init(base), trace).offered| == |Run(Init(base), trace).handled|
  {
    assert |Run(Init(base), trace).offered| == |Run(Init(base), trace).handled| by {
      RunKeeps(base, trace);
    }
    if trace != [] {
      OfferedToLastHandler(base, trace[..|trace| - 1]);
      StepOffers(Run(Init(base), trace[..|trace| - 1]), trace[|trace| - 1]);
    }
  }

  lemma StepOffers(s: Sys, step: Step)
    ensures var t := Next(s, step);
            && t.handler == (if step.SetHandler? then step.present else s.handler)
            && t.offered == (if step.Dispatch? && s.worker.Handling? then s.offered + [s.handler] else s.offered)
  {
  }

  // ----- stopping -----

  /** A worker past its start that was told to stop will be woken. */
  ghost predicate StopInv(s: Sys) {
    !s.running && (s.worker.Parked? || s.worker.Draining? || s.worker.Handling?) ==> s.sem + s.signalling > 0
  }

  lemma {:induction false} RunKeepsStop(base: nat, trace: seq<Step>)
    ensures StopInv(Run(Init(base), trace))
  {
    if trace != [] {
      RunKeepsStop(base, trace[..|trace| - 1]);
      StepKeepsStop(Run(Init(base), trace[..|trace| - 1]), trace[|trace| - 1]);
    }
  }

  lemma StepKeepsStop(s: Sys, step: Step)
    requires StopInv(s)
    ensures StopInv(Next(s, step))
  {
  }

  predicate Stopping(s: Sys) {
    !s.running && s.worker != Starting
  }

  lemma StoppingMoves(s: Sys) returns (step: Step)
    requires StopInv(s) && Stopping(s) && s.worker != Stopped
    ensures Quiet(step) && Enabled(s, step)
  {
    match s.worker
    case Woken => step := Check;
    case Draining => step := Pop;
    case Handling(_) => step := Dispatch;
    case Parked => step := if s.sem > 0 then Down else Signal;
  }

  lemma QuietKeepsStopping(s: Sys, step: Step)
    requires StopInv(s) && Stopping(s) && Quiet(step)
    ensures StopInv(Next(s, step)) && Stopping(Next(s, step))
  {
  }

  lemma {:induction false} QuietRunKeepsStopping(s: Sys, trace: seq<Step>)
    requires StopInv(s) && Stopping(s) && AllQuiet(trace)
    ensures StopInv(Run(s, trace)) && Stopping(Run(s, trace))
  {
    if trace != [] {
      QuietRunKeepsStopping(s, trace[..|trace| - 1]);
      QuietKeepsStopping(Run(s, trace[..|trace| - 1]), trace[|trace| - 1]);
    }
  }

  lemma {:induction false} StopIt(s: Sys, t: Sys, trace: seq<Step>) returns (more: seq<Step>)
    requires StopInv(s) && Stopping(s) && AllQuiet(trace) && t == Run(s, trace)
    ensures AllQuiet(more) && Run(s, more).worker == Stopped
    decreases 2 * |t.core.fifo| + |InHand(t)|, 2 * t.signalling + t.sem, Phase(t.worker)
  {
    QuietRunKeepsStopping(s, trace);
    if t.worker == Stopped {
      more := trace;
    } else {
      var step := StoppingMoves(t);
      RunOn(s, trace, step);
      QuietStepIsProgress(t, step);
      more := StopIt(s, Next(t, step), trace + [step]);
    }
  }

  /** From every reachable state after a stop, once the worker had begun, the worker and
      the callers already signalling end it, and however they move, once they have
      nothing left to do it has ended; an ended worker dispatches nothing more. */
  lemma StopEndsWorker(base: nat, trace: seq<Step>) returns (more: seq<Step>)
    requires Stopping(Run(Init(base), trace))
    ensures var s := Run(Init(base), trace);
            && AllQuiet(more) && Run(s, more).worker == Stopped
            && forall other :: AllQuiet(other) && (forall step :: Quiet(step) ==> !Enabled(Run(s, other), step))
                 ==> Run(s, other).worker == Stopped
    ensures forall step :: Run(Init(base), trace).worker == Stopped ==>
              Next(Run(Init(base), trace), step).worker == Stopped
              && Next(Run(Init(base), trace), step).handled == Run(Init(base), trace).handled
  {
    RunKeepsStop(base, trace);
    var s := Run(Init(base), trace);
    more := StopIt(s, s, []);
    forall other | AllQuiet(other) && (forall step :: Quiet(step) ==> !Enabled(Run(s, other), step))
      ensures Run(s, other).worker == Stopped
    {
      QuietRunKeepsStopping(s, other);
      if Run(s, other).worker != Stopped {
        var step := StoppingMoves(Run(s, other));
      }
    }
    forall step
      ensures s.worker == Stopped ==> Next(s, step).worker == Stopped && Next(s, step).handled == s.handled
    {
      StoppedStays(s, step);
    }
  }

  lemma StoppedStays(s: Sys, step: Step)
    ensures s.worker == Stopped ==> Next(s, step).worker == Stopped && Next(s, step).handled == s.handled
  {
  }

  /** A stop is seen, and a timeout wakes a parked worker as a raised semaphore does. */
  lemma StopAndTimeout(s: Sys)
    ensures !Next(s, Stop).running && Next(s, Stop).signalling > 0
    ensures s.worker == Parked ==>
              Next(Next(s, Timeout), Check) == s.(worker := if s.running then Draining else Stopped)
  {
  }

  // ----- the worker empties the queue by itself -----

  /** Steps only the worker and the callers already about to signal take. */
  predicate Quiet(step: Step) {
    step in {Signal, Begin, Down, Check, Pop, Dispatch}
  }

  predicate AllQuiet(trace: seq<Step>) {
    forall i :: 0 <= i < |trace| ==> Quiet(trace[i])
  }

  predicate Enabled(s: Sys, step: Step) {
    Next(s, step) != s
  }

  /** The worker has not been stopped. */
  predicate Going(s: Sys) {
    s.worker != Stopped && (s.running || s.worker == Starting)
  }

  function Phase(w: Worker): nat {
    match w
    case Starting => 4
    case Woken => 3
    case Draining => 2
    case _ => 1
  }

  /** Fewer messages, or as many and fewer wake-ups, or as many of both and the worker
      nearer to parking. */
  predicate Closer(t: Sys, s: Sys) {
    var (a, b) := (2 * |t.core.fifo| + |InHand(t)|, 2 * |s.core.fifo| + |InHand(s)|);
    var (c, d) := (2 * t.signalling + t.sem, 2 * s.signalling + s.sem);
    a < b || (a == b && (c < d || (c == d && Phase(t.worker) < Phase(s.worker))))
  }

  lemma QuietStepIsProgress(s: Sys, step: Step)
    requires Quiet(step) && Enabled(s, step)
    ensures Closer(Next(s, step), s)
  {
  }

  lemma QuietStepKeeps(s: Sys, step: Step)
    requires Quiet(step) && Going(s)
    ensures Going(Next(s, step)) && Next(s, step).accepted == s.accepted
  {
  }

  /** As long as a message is not dispatched there is something to do. */
  lemma NotStuck(s: Sys) returns (step: Step)
    requires OrderInv(s) && WakeInv(s) && Going(s) && s.handled != s.accepted
    ensures Quiet(step) && Enabled(s, step)
  {
    match s.worker
    case Starting => step := Begin;
    case Woken => step := Check;
    case Draining => step := Pop;
    case Handling(_) => step := Dispatch;
    case Parked =>
      assert s.handled + [] + s.core.fifo == s.handled + s.core.fifo;
      assert s.core.fifo == [] ==> s.handled + s.core.fifo == s.handled;
      step := if s.sem > 0 then Down else Signal;
  }

  /** What a run of quiet steps keeps. */
  lemma {:induction false} QuietRunKeeps(s: Sys, trace: seq<Step>)
    requires OrderInv(s) && WakeInv(s) && Going(s) && AllQuiet(trace)
    ensures var t := Run(s, trace); OrderInv(t) && WakeInv(t) && Going(t) && t.accepted == s.accepted
  {
    if trace == [] {
    } else {
      var before, last := trace[..|trace| - 1], trace[|trace| - 1];
      QuietRunKeeps(s, before);
      var t := Run(s, before);
      StepKeepsOrder(t, last);
      StepKeepsWake(t, last);
      QuietStepKeeps(t, last);
    }
  }

  lemma {:induction false} DispatchAll(s: Sys, t: Sys, trace: seq<Step>) returns (more: seq<Step>)
    requires OrderInv(s) && WakeInv(s) && Going(s) && AllQuiet(trace) && t == Run(s, trace)
    ensures AllQuiet(more) && Run(s, more).handled == s.accepted
    decreases 2 * |t.core.fifo| + |InHand(t)|, 2 * t.signalling + t.sem, Phase(t.worker)
  {
    QuietRunKeeps(s, trace);
    if t.handled == t.accepted {
      more := trace;
    } else {
      var step := NotStuck(t);
      RunOn(s, trace, step);
      QuietStepIsProgress(t, step);
      more := DispatchAll(s, Next(t, step), trace + [step]);
    }
  }

  lemma RunOn(s: Sys, trace: seq<Step>, step: Step)
    ensures Run(s, trace + [step]) == Next(Run(s, trace), step)
  {
    assert (trace + [step])[..|trace|] == trace;
  }

  /** From every reachable state in which the worker has not been stopped, the worker
      and the callers already signalling can dispatch every accepted message without
      any further post; and however they move, once they have nothing left to do all
      are dispatched. */
  lemma EveryMessageIsDispatched(base: nat, trace: seq<Step>) returns (more: seq<Step>)
    requires Going(Run(Init(base), trace))
    ensures var s := Run(Init(base), trace);
            && AllQuiet(more) && Run(s, more).handled == s.accepted
            && forall other :: AllQuiet(other) && (forall step :: Quiet(step) ==> !Enabled(Run(s, other), step))
                 ==> Run(s, other).handled == s.accepted
  {
    RunKeeps(base, trace);
    var s := Run(Init(base), trace);
    more := DispatchAll(s, s, []);
    forall other | AllQuiet(other) && (forall step :: Quiet(step) ==> !Enabled(Run(s, other), step))
      ensures Run(s, other).handled == s.accepted
    {
      QuietRunKeeps(s, other);
      if Run(s, other).handled != s.accepted {
        var step := NotStuck(Run(s, other));
      }
    }
  }

  /** A post is refused exactly when 32 accepted messages are neither dispatched nor in
      the worker's hands. */
  lemma PostRefusedIff(base: nat, trace: seq<Step>, node: nat)
    ensures var s := Run(Init(base), trace);
            !PostSpec(s.core, node).1 <==> |s.accepted| - |s.handled| - |InHand(s)| == FIFO_LEN
  {
    RunKeeps(base, trace);
  }

  // ----- contents -----

  /** Callers post pool nodes they hold, and free or fill in no node that is queued or
      in the worker's hands. */
  predicate Careful(s: Sys, step: Step) {
    match step
    case Post(node) =>
      PoolIndex(s.core.base, node).Some? && s.core.used[PoolIndex(s.core.base, node).value]
    case Free(node) => node !in InHand(s) + s.core.fifo
    case Write(node, _) => node !in InHand(s) + s.core.fifo
    case _ => true
  }

  predicate CarefulRun(base: nat, trace: seq<Step>) {
    trace == [] || (CarefulRun(base, trace[..|trace| - 1])
                    && Careful(Run(Init(base), trace[..|trace| - 1]), trace[|trace| - 1]))
  }

  /** A node still on its way holds what was sent, and cannot be fetched again. */
  ghost predicate Held(c: Core, node: nat, content: MsgNode) {
    var i := PoolIndex(c.base, node);
    i.Some? && c.used[i.value] && c.nodes[i.value] == content
  }

  ghost predicate ContentInv(s: Sys) {
    && |s.sent| == |s.accepted| && |s.handled| <= |s.accepted|
    && s.received == s.sent[..|s.handled|]
    && forall k :: |s.handled| <= k < |s.accepted| ==> Held(s.core, s.accepted[k], s.sent[k])
  }

  lemma OnTheWay(s: Sys, k: nat)
    requires OrderInv(s) && |s.handled| <= k < |s.accepted|
    ensures s.accepted[k] in InHand(s) + s.core.fifo
  {
    var way := InHand(s) + s.core.fifo;
    assert s.accepted == s.handled + way;
    assert s.accepted[k] == way[k - |s.handled|];
  }

  lemma HeldSurvives(s: Sys, step: Step, node: nat, content: MsgNode)
    requires Held(s.core, node, content) && node in InHand(s) + s.core.fifo && Careful(s, step)
    ensures Held(Next(s, step).core, node, content)
  {
    var base := s.core.base;
    var i := PoolIndex(base, node).value;
    PointersNameNodes(base, node, i);
    if (step.Write? || step.Free?) && PoolIndex(base, step.node).Some? {
      PointersNameNodes(base, step.node, PoolIndex(base, step.node).value);
    }
  }

  lemma StepKeepsContent(s: Sys, step: Step)
    requires OrderInv(s) && ContentInv(s) && Careful(s, step)
    ensures ContentInv(Next(s, step))
  {
    var t := Next(s, step);
    StepKeepsOrder(s, step);
    StepKeepsReceived(s, step);
    assert s.accepted <= t.accepted && s.sent <= t.sent && |s.handled| <= |t.handled|;
    forall k | |t.handled| <= k < |t.accepted|
      ensures Held(t.core, t.accepted[k], t.sent[k])
    {
      if k < |s.accepted| {
        OnTheWay(s, k);
        HeldSurvives(s, step, s.accepted[k], s.sent[k]);
      }
    }
  }

  lemma StepKeepsReceived(s: Sys, step: Step)
    requires OrderInv(s) && ContentInv(s)
    ensures var t := Next(s, step);
            |t.sent| == |t.accepted| && |t.handled| <= |t.sent| && t.received == t.sent[..|t.handled|]
  {
    if step.Dispatch? && s.worker.Handling? {
      DispatchedIsSent(s);
    }
  }

  lemma DispatchedIsSent(s: Sys)
    requires OrderInv(s) && ContentInv(s) && s.worker.Handling?
    ensures |s.handled| < |s.accepted| && Content(s.core, s.worker.node) == s.sent[|s.handled|]
  {
    assert s.accepted == s.handled + ([s.worker.node] + s.core.fifo);
    assert s.accepted[|s.handled|] == s.worker.node;
    assert Held(s.core, s.accepted[|s.handled|], s.sent[|s.handled|]);
  }

  /** With careful callers every message reaches the handler as it was posted. */
  lemma {:induction false} ContentsArriveIntact(base: nat, trace: seq<Step>)
    requires CarefulRun(base, trace)
    ensures var s := Run(Init(base), trace);
            |s.handled| <= |s.sent| && s.received == s.sent[..|s.handled|] && ContentInv(s)
  {
    if trace == [] {
    } else {
      var before := trace[..|trace| - 1];
      ContentsArriveIntact(base, before);
      RunKeeps(base, before);
      StepKeepsContent(Run(Init(base), before), trace[|trace| - 1]);
    }
  }

  // ----- when the FIFO can fill -----

  /** Callers post only nodes they fetched and did not post already, and free only
      nodes that are not queued. */
  predicate Disciplined(s: Sys, step: Step) {
    match step
    case Post(node) =>
      node !in s.core.fifo && PoolIndex(s.core.base, node).Some? && s.core.used[PoolIndex(s.core.base, node).value]
    case Free(node) => node !in s.core.fifo
    case _ => true
  }

  predicate DisciplinedRun(base: nat, trace: seq<Step>) {
    trace == [] || (DisciplinedRun(base, trace[..|trace| - 1])
                    && Disciplined(Run(Init(base), trace[..|trace| - 1]), trace[|trace| - 1]))
  }

  ghost predicate QueuedOnce(c: Core) {
    && (forall i, j :: 0 <= i < j < |c.fifo| ==> c.fifo[i] != c.fifo[j])
    && (forall i :: 0 <= i < |c.fifo| ==>
          PoolIndex(c.base, c.fifo[i]).Some? && c.used[PoolIndex(c.base, c.fifo[i]).value])
  }

  function Nodes(base: nat, n: nat): (r: set<nat>)
    ensures |r| <= n
    ensures forall i :: 0 <= i < n ==> Address(base, i) in r
  {
    if n == 0 then {} else Nodes(base, n - 1) + {Address(base, n - 1)}
  }

  lemma {:induction false} DistinctFit(s: seq<nat>, all: set<nat>)
    requires forall i, j :: 0 <= i < j < |s| ==> s[i] != s[j]
    requires forall i :: 0 <= i < |s| ==> s[i] in all
    ensures |s| <= |all|
  {
    if s == [] {
    } else {
      var n := |s| - 1;
      DistinctFit(s[..n], all - {s[n]});
    }
  }

  lemma QueueFitsPool(c: Core)
    requires QueuedOnce(c)
    ensures |c.fifo| <= POOL_LEN
  {
    forall i | 0 <= i < |c.fifo|
      ensures c.fifo[i] in Nodes(c.base, POOL_LEN)
    {
      PointersNameNodes(c.base, c.fifo[i], PoolIndex(c.base, c.fifo[i]).value);
    }
    DistinctFit(c.fifo, Nodes(c.base, POOL_LEN));
  }

  lemma FreeKeepsQueuedOnce(c: Core, node: nat)
    requires QueuedOnce(c) && node !in c.fifo
    ensures QueuedOnce(FreeSpec(c, node))
  {
    if PoolIndex(c.base, node).Some? {
      var index := PoolIndex(c.base, node).value;
      PointersNameNodes(c.base, node, index);
      forall i | 0 <= i < |c.fifo|
        ensures PoolIndex(c.base, c.fifo[i]).value != index
      {
        assert c.fifo[i] in c.fifo;
        PointersNameNodes(c.base, c.fifo[i], index);
      }
    }
  }

  lemma StepKeepsQueuedOnce(s: Sys, step: Step)
    requires QueuedOnce(s.core) && Disciplined(s, step)
    ensures QueuedOnce(Next(s, step).core)
  {
    if step.Free? {
      FreeKeepsQueuedOnce(s.core, step.node);
    }
  }

  lemma {:induction false} DisciplineKeepsQueue(base: nat, trace: seq<Step>)
    requires DisciplinedRun(base, trace)
    ensures QueuedOnce(Run(Init(base), trace).core)
  {
    if trace == [] {
    } else {
      DisciplineKeepsQueue(base, trace[..|trace| - 1]);
      StepKeepsQueuedOnce(Run(Init(base), trace[..|trace| - 1]), trace[|trace| - 1]);
    }
  }

  /** Callers that follow the discipline never see a full FIFO: the pool runs out
      first. */
  lemma DisciplinedPostSucceeds(base: nat, trace: seq<Step>, node: nat)
    requires DisciplinedRun(base, trace)
    ensures PostSpec(Run(Init(base), trace).core, node).1
    ensures |Run(Init(base), trace).core.fifo| <= POOL_LEN
  {
    DisciplineKeepsQueue(base, trace);
    QueueFitsPool(Run(Init(base), trace).core);
  }

  /** One caller fetching a node, posting it once and freeing it while it is queued. */
  function EarlyFrees(base: nat, n: nat): seq<Step> {
    if n == 0 then [] else EarlyFrees(base, n - 1) + [Fetch] + [Post(base)] + [Free(base)]
  }

  lemma EarlyFree(s: Sys)
    requires s.core.base > 0 && !s.core.used[0] && |s.core.fifo| < FIFO_LEN
    ensures var t := Next(Next(Next(s, Fetch), Post(s.core.base)), Free(s.core.base));
            t.core == s.core.(fifo := s.core.fifo + [s.core.base], nodes := s.core.nodes[0 := FreshNode(0)])
  {
    var base := s.core.base;
    PointersNameNodes(base, base, 0);
    assert FirstUnused(s.core.used) == 0;
    assert s.core.used[0 := true][0 := false] == s.core.used;
  }

  lemma {:induction false} EarlyFreesFill(base: nat, n: nat)
    requires base > 0 && n <= FIFO_LEN
    ensures var c := Run(Init(base), EarlyFrees(base, n)).core;
            c.base == base && !c.used[0] && |c.fifo| == n
  {
    if n == 0 {
    } else {
      var before := EarlyFrees(base, n - 1);
      EarlyFreesFill(base, n - 1);
      EarlyFree(Run(Init(base), before));
      RunOn(Init(base), before, Fetch);
      RunOn(Init(base), before + [Fetch], Post(base));
      RunOn(Init(base), before + [Fetch] + [Post(base)], Free(base));
    }
  }

  /** Posting each fetched node only once is not enough: nodes freed while still
      queued let the 33rd post find the FIFO full. */
  lemma EarlyFreesRefusePost(base: nat, node: nat)
    requires base > 0
    ensures !PostSpec(Run(Init(base), EarlyFrees(base, FIFO_LEN)).core, node).1
  {
    EarlyFreesFill(base, FIFO_LEN);
  }
}
