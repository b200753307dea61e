/** Bignum objects behind the hostap interface: pointer aliasing, in-place
    results, and the four borrowed constants of a live elliptic-curve group. */
module SaeObjects {
  import opened Common
  import NumberTheory
  import SaeField
  import SaeRandom

  const GROUP_19 := 19
  const BIGNUM_MAGIC: u32 := 0x424e_3634

  // ----- address ranges -----

  function CheckedRange(address: nat, length: nat): Option<(nat, nat)> {
    if address + length <= U32_MAX then Some((address, address + length)) else None
  }

  function RangesOverlap(a: nat, aLength: nat, b: nat, bLength: nat): Option<bool> {
    match (CheckedRange(a, aLength), CheckedRange(b, bLength))
    case (Some(x), Some(y)) => Some(x.0 < y.1 && y.0 < x.1)
    case _ => None
  }

  predicate ObjectAliasIsValid(a: nat, aLength: nat, b: nat, bLength: nat) {
    a == b || RangesOverlap(a, aLength, b, bLength) == Some(false)
  }

  ghost predicate Covers(start: nat, length: nat, x: nat) {
    start <= x < start + length
  }

  /** Two objects are accepted exactly when they are the same object, or neither
      wraps around the address space and no byte belongs to both. */
  lemma AliasIsIdenticalOrDisjoint(a: nat, b: nat, length: nat)
    requires length > 0
    ensures ObjectAliasIsValid(a, length, b, length) <==>
            a == b
            || (a + length <= U32_MAX && b + length <= U32_MAX
                && forall x :: Covers(a, length, x) ==> !Covers(b, length, x))
  {
    if a + length <= U32_MAX && b + length <= U32_MAX && a < b + length && b < a + length {
      var shared := if a < b then b else a;
      assert Covers(a, length, shared) && Covers(b, length, shared);
    }
  }

  predicate AliasesValid(output: nat, inputs: seq<nat>, size: nat) {
    && output != 0
    && (forall i :: 0 <= i < |inputs| ==> inputs[i] != 0 && ObjectAliasIsValid(output, size, inputs[i], size))
    && (forall i, j :: 0 <= j < i < |inputs| ==> ObjectAliasIsValid(inputs[i], size, inputs[j], size))
  }

  /** `bignum_aliases`: every pair among the output and the inputs. */
  method BignumAliases(output: nat, inputs: seq<nat>, size: nat) returns (ok: bool)
    ensures ok <==> AliasesValid(output, inputs, size)
  {
    if output == 0 {
      return false;
    }
    for index := 0 to |inputs|
      invariant AliasesValid(output, inputs[..index], size)
    {
      var input := inputs[index];
      if input == 0 || !ObjectAliasIsValid(output, size, input, size) {
        return false;
      }
      for other := 0 to index
        invariant forall j :: 0 <= j < other ==> ObjectAliasIsValid(input, size, inputs[j], size)
      {
        if !ObjectAliasIsValid(input, size, inputs[other], size) {
          return false;
        }
      }
    }
    assert inputs[..|inputs|] == inputs;
    return true;
  }

  // ----- runs over every live object -----

  datatype Curve = Curve(prime: nat, order: nat, a: nat, b: nat)

  /** What the compiler fixes: size and alignment of a bignum object, and where the
      first of the four embedded constants starts inside a group object. */
  datatype Host = Host(size: nat, align: nat, head: nat, curve: Curve)

  datatype Bignum = Bignum(magic: u32, owned: bool, value: nat)

  datatype State = State(host: Host, objects: map<nat, Bignum>, groups: set<nat>)

  datatype Step =
    | Init(at: nat, value: nat)
    | Deinit(pointer: nat)
    | Call(operands: seq<nat>, result: nat, operation: seq<nat> -> Option<nat>)
    | EcInit(group: int, base: nat)
    | EcDeinit(context: nat)

  predicate Aligned(host: Host, p: nat) {
    host.align > 0 && p % host.align == 0
  }

  predicate Apart(host: Host, p: nat, q: nat) {
    p + host.size <= q || q + host.size <= p
  }

  /** What the allocator promises of fresh storage. */
  predicate Unused(s: State, at: nat) {
    at != 0 && Aligned(s.host, at) && at + s.host.size <= U32_MAX && forall p :: p in s.objects ==> Apart(s.host, p, at)
  }

  function Fields(host: Host, base: nat): seq<nat> {
    [base + host.head, base + host.head + host.size, base + host.head + 2 * host.size, base + host.head + 3 * host.size]
  }

  function Constants(host: Host): seq<nat> {
    [host.curve.prime, host.curve.order, host.curve.a, host.curve.b]
  }

  predicate FieldsUnused(s: State, base: nat) {
    forall i :: 0 <= i < 4 ==> Unused(s, Fields(s.host, base)[i])
  }

  function AddFields(host: Host, objects: map<nat, Bignum>, base: nat, n: nat): map<nat, Bignum>
    requires n <= 4
  {
    if n == 0 then objects
    else AddFields(host, objects, base, n - 1)[Fields(host, base)[n - 1] := Bignum(BIGNUM_MAGIC, false, Constants(host)[n - 1])]
  }

  function RemoveFields(host: Host, objects: map<nat, Bignum>, base: nat): map<nat, Bignum> {
    map p | p in objects && p !in Fields(host, base) :: objects[p]
  }

  /** The value behind a pointer that is aligned and whose magic word is right. */
  function Clone(host: Host, objects: map<nat, Bignum>, p: nat): Option<nat> {
    if p != 0 && Aligned(host, p) && p in objects && objects[p].magic == BIGNUM_MAGIC then Some(objects[p].value)
    else None
  }

  predicate Writable(host: Host, objects: map<nat, Bignum>, p: nat) {
    Clone(host, objects, p).Some? && objects[p].owned
  }

  /** All operands, or nothing if one cannot be cloned. */
  function ClonesOf(host: Host, objects: map<nat, Bignum>, operands: seq<nat>): Option<seq<nat>> {
    if operands == [] then Some([])
    else
      var first := ClonesOf(host, objects, operands[..|operands| - 1]);
      var last := Clone(host, objects, operands[|operands| - 1]);
      if first.None? || last.None? then None else Some(first.value + [last.value])
  }

  /** The value a call would store, when the pointers, operands and arithmetic are
      all accepted. */
  function Outcome(host: Host, objects: map<nat, Bignum>, operands: seq<nat>, result: nat,
                   operation: seq<nat> -> Option<nat>): Option<nat>
  {
    if !AliasesValid(result, operands, host.size) then None
    else
      var values := ClonesOf(host, objects, operands);
      if values.None? then None else operation(values.value)
  }

  function AfterCall(host: Host, objects: map<nat, Bignum>, operands: seq<nat>, result: nat,
                     operation: seq<nat> -> Option<nat>): map<nat, Bignum>
  {
    var value := Outcome(host, objects, operands, result, operation);
    if value.Some? && Writable(host, objects, result)
    then objects[result := Bignum(BIGNUM_MAGIC, true, value.value)]
    else objects
  }

  lemma {:induction false} CloneOneMore(host: Host, objects: map<nat, Bignum>, operands: seq<nat>, i: nat)
    requires i < |operands|
    ensures Clone(host, objects, operands[i]).None? ==> ClonesOf(host, objects, operands).None?
    ensures operands[..i + 1][..i] == operands[..i]
    decreases |operands|
  {
    if i == |operands| - 1 {
    } else {
      CloneOneMore(host, objects, operands[..|operands| - 1], i);
    }
  }

  function Next(s: State, step: Step): State {
    match step
    case Init(at, value) =>
      if Unused(s, at) then s.(objects := s.objects[at := Bignum(BIGNUM_MAGIC, true, value)]) else s
    case Deinit(pointer) =>
      if Writable(s.host, s.objects, pointer)
      then s.(objects := map p | p in s.objects && p != pointer :: s.objects[p])
      else s
    case Call(operands, result, operation) =>
      s.(objects := AfterCall(s.host, s.objects, operands, result, operation))
    case EcInit(group, base) =>
      if group == GROUP_19 && base !in s.groups && FieldsUnused(s, base)
      then s.(objects := AddFields(s.host, s.objects, base, 4), groups := s.groups + {base})
      else s
    case EcDeinit(context) =>
      if context in s.groups
      then s.(objects := RemoveFields(s.host, s.objects, context), groups := s.groups - {context})
      else s
  }

  function Run(s: State, trace: seq<Step>): State {
    if trace == [] then s else Next(Run(s, trace[..|trace| - 1]), trace[|trace| - 1])
  }

  predicate Start(s: State) {
    s.host.size > 0 && s.objects == map[] && s.groups == {}
  }

  ghost predicate LayoutInv(s: State) {
    && s.host.size > 0
    && (forall p :: p in s.objects ==>
          p != 0 && Aligned(s.host, p) && p + s.host.size <= U32_MAX && s.objects[p].magic == BIGNUM_MAGIC)
    && (forall p, q :: p in s.objects && q in s.objects && p != q ==> Apart(s.host, p, q))
  }

  /** The constants of one group are in place and nobody owns them. */
  ghost predicate Intact(s: State, base: nat) {
    forall i :: 0 <= i < 4 ==>
      Fields(s.host, base)[i] in s.objects
      && s.objects[Fields(s.host, base)[i]] == Bignum(BIGNUM_MAGIC, false, Constants(s.host)[i])
  }

  ghost predicate Separate(host: Host, g: nat, h: nat) {
    forall i, j :: 0 <= i < 4 && 0 <= j < 4 ==> Fields(host, g)[i] != Fields(host, h)[j]
  }

  ghost predicate GroupsInv(s: State) {
    && (forall g :: g in s.groups ==> Intact(s, g))
    && (forall g, h :: g in s.groups && h in s.groups && g != h ==> Separate(s.host, g, h))
  }

  lemma {:induction false} FieldsAdded(s: State, base: nat, n: nat)
    requires s.host.size > 0 && n <= 4 && FieldsUnused(s, base)
    ensures var t := AddFields(s.host, s.objects, base, n);
            && (forall p :: p in t <==> p in s.objects || exists i :: 0 <= i < n && p == Fields(s.host, base)[i])
            && (forall p :: p in s.objects ==> p in t && t[p] == s.objects[p])
            && (forall i :: 0 <= i < n ==> Fields(s.host, base)[i] in t
                                           && t[Fields(s.host, base)[i]] == Bignum(BIGNUM_MAGIC, false, Constants(s.host)[i]))
  {
    if n == 0 {
    } else {
      FieldsAdded(s, base, n - 1);
      assert Unused(s, Fields(s.host, base)[n - 1]);
    }
  }

  lemma FieldsApart(host: Host, base: nat, i: nat, j: nat)
    requires i < 4 && j < 4 && i != j
    ensures Apart(host, Fields(host, base)[i], Fields(host, base)[j])
  {
  }

  lemma EcInitKeepsLayout(s: State, base: nat)
    requires LayoutInv(s) && base !in s.groups && FieldsUnused(s, base)
    ensures LayoutInv(Next(s, EcInit(GROUP_19, base)))
  {
    FieldsAdded(s, base, 4);
    var t := Next(s, EcInit(GROUP_19, base));
    forall p, q | p in t.objects && q in t.objects && p != q
      ensures Apart(s.host, p, q)
    {
      if p !in s.objects && q !in s.objects {
        var i :| 0 <= i < 4 && p == Fields(s.host, base)[i];
        var j :| 0 <= j < 4 && q == Fields(s.host, base)[j];
        FieldsApart(s.host, base, i, j);
      }
    }
  }

  lemma IntactIsSeparate(s: State, g: nat, base: nat)
    requires s.host.size > 0 && Intact(s, g) && FieldsUnused(s, base)
    ensures Separate(s.host, g, base) && Separate(s.host, base, g)
  {
    forall i, j | 0 <= i < 4 && 0 <= j < 4
      ensures Fields(s.host, g)[i] != Fields(s.host, base)[j]
    {
      assert Unused(s, Fields(s.host, base)[j]);
      assert Apart(s.host, Fields(s.host, g)[i], Fields(s.host, base)[j]);
    }
  }

  lemma IntactIsKept(s: State, t: State, g: nat)
    requires Intact(s, g) && t.host == s.host
    requires forall p :: p in s.objects ==> p in t.objects && t.objects[p] == s.objects[p]
    ensures Intact(t, g)
  {
  }

  lemma EcInitKeepsGroups(s: State, base: nat)
    requires s.host.size > 0 && GroupsInv(s) && base !in s.groups && FieldsUnused(s, base)
    ensures GroupsInv(Next(s, EcInit(GROUP_19, base)))
  {
    var t := Next(s, EcInit(GROUP_19, base));
    NewGroupIsIntact(s, base);
    GroupJoins(s, t, base);
  }

  lemma NewGroupIsIntact(s: State, base: nat)
    requires s.host.size > 0 && base !in s.groups && FieldsUnused(s, base)
    ensures var t := Next(s, EcInit(GROUP_19, base));
            Intact(t, base) && forall p :: p in s.objects ==> p in t.objects && t.objects[p] == s.objects[p]
  {
    FieldsAdded(s, base, 4);
  }

  lemma GroupJoins(s: State, t: State, base: nat)
    requires s.host.size > 0 && GroupsInv(s) && FieldsUnused(s, base)
    requires t.host == s.host && t.groups == s.groups + {base} && Intact(t, base)
    requires forall p :: p in s.objects ==> p in t.objects && t.objects[p] == s.objects[p]
    ensures GroupsInv(t)
  {
    forall g | g in s.groups
      ensures Intact(t, g) && Separate(s.host, g, base) && Separate(s.host, base, g)
    {
      IntactIsKept(s, t, g);
      IntactIsSeparate(s, g, base);
    }
  }

  lemma EcDeinitKeeps(s: State, base: nat)
    requires LayoutInv(s) && GroupsInv(s) && base in s.groups
    ensures LayoutInv(Next(s, EcDeinit(base))) && GroupsInv(Next(s, EcDeinit(base)))
  {
    var t := Next(s, EcDeinit(base));
    forall g | g in t.groups
      ensures Intact(t, g)
    {
      assert Intact(s, g);
      forall i | 0 <= i < 4
        ensures Fields(s.host, g)[i] !in Fields(s.host, base)
      {
        assert Separate(s.host, g, base);
      }
    }
  }

  /** No call but the group's own deinitialisation frees or changes its constants. */
  lemma ConstantsSurvive(s: State, step: Step, base: nat)
    requires LayoutInv(s) && GroupsInv(s) && base in s.groups && step != EcDeinit(base)
    ensures base in Next(s, step).groups && Intact(Next(s, step), base)
  {
    assert Intact(s, base);
    StepKeepsInv(s, step);
  }

  lemma StepKeepsInv(s: State, step: Step)
    requires LayoutInv(s) && GroupsInv(s)
    ensures LayoutInv(Next(s, step)) && GroupsInv(Next(s, step))
  {
    match step
    case EcInit(group, base) =>
      if group == GROUP_19 && base !in s.groups && FieldsUnused(s, base) {
        EcInitKeepsLayout(s, base);
        EcInitKeepsGroups(s, base);
      }
    case EcDeinit(context) =>
      if context in s.groups {
        EcDeinitKeeps(s, context);
      }
    case _ =>
      OwnedStepKeeps(s, step);
  }

  lemma OwnedStepKeeps(s: State, step: Step)
    requires LayoutInv(s) && GroupsInv(s) && !step.EcInit? && !step.EcDeinit?
    ensures LayoutInv(Next(s, step)) && GroupsInv(Next(s, step))
  {
    var t := Next(s, step);
    assert t.host == s.host && t.groups == s.groups;
    forall g | g in s.groups
      ensures Intact(t, g)
    {
      assert Intact(s, g);
      forall i | 0 <= i < 4
        ensures Fields(s.host, g)[i] in t.objects && t.objects[Fields(s.host, g)[i]] == s.objects[Fields(s.host, g)[i]]
      {
        if step.Init? && Unused(s, step.at) {
          assert Apart(s.host, Fields(s.host, g)[i], step.at);
        }
      }
    }
  }

  lemma {:induction false} RunKeepsInv(s: State, trace: seq<Step>)
    requires Start(s)
    ensures LayoutInv(Run(s, trace)) && GroupsInv(Run(s, trace))
  {
    if trace == [] {
    } else {
      RunKeepsInv(s, trace[..|trace| - 1]);
      StepKeepsInv(Run(s, trace[..|trace| - 1]), trace[|trace| - 1]);
    }
  }

  /** After any run, every group that was initialised and not deinitialised since
      still holds exactly its four constants, borrowed, through any further calls
      that do not deinitialise it. */
  lemma {:induction false} ConstantsOutliveCalls(s: State, before: seq<Step>, after: seq<Step>, base: nat)
    requires Start(s) && base in Run(s, before).groups
    requires EcDeinit(base) !in after
    ensures base in Run(Run(s, before), after).groups && Intact(Run(Run(s, before), after), base)
    ensures LayoutInv(Run(Run(s, before), after)) && GroupsInv(Run(Run(s, before), after))
    decreases |after|
  {
    RunKeepsInv(s, before);
    if after == [] {
      assert Intact(Run(s, before), base);
    } else {
      var n := |after| - 1;
      ConstantsOutliveCalls(s, before, after[..n], base);
      ConstantsSurvive(Run(Run(s, before), after[..n]), after[n], base);
      StepKeepsInv(Run(Run(s, before), after[..n]), after[n]);
    }
  }

  /** Between live objects the alias test never rejects. */
  lemma LivePointersAccepted(s: State, operands: seq<nat>, result: nat)
    requires LayoutInv(s) && result in s.objects && Live(s.objects, operands)
    ensures AliasesValid(result, operands, s.host.size)
  {
    forall p, q | p in s.objects && q in s.objects
      ensures ObjectAliasIsValid(p, s.host.size, q, s.host.size)
    {
      assert p == q || Apart(s.host, p, q);
    }
  }

  predicate Live(objects: map<nat, Bignum>, operands: seq<nat>) {
    forall i :: 0 <= i < |operands| ==> operands[i] in objects
  }

  function ValuesOf(objects: map<nat, Bignum>, operands: seq<nat>): seq<nat>
    requires Live(objects, operands)
  {
    seq(|operands|, i requires 0 <= i < |operands| => objects[operands[i]].value)
  }

  lemma {:induction false} ClonesAreValues(s: State, operands: seq<nat>)
    requires LayoutInv(s) && Live(s.objects, operands)
    ensures ClonesOf(s.host, s.objects, operands) == Some(ValuesOf(s.objects, operands))
  {
    if operands == [] {
    } else {
      var n := |operands| - 1;
      ClonesAreValues(s, operands[..n]);
      assert ValuesOf(s.objects, operands) == ValuesOf(s.objects, operands[..n]) + [s.objects[operands[n]].value];
    }
  }

  /** Writing a result over an operand gives the value a separate output gets, and
      changes nothing else. */
  lemma InPlaceEqualsFresh(s: State, trace: seq<Step>, operands: seq<nat>, result: nat, other: nat,
                           operation: seq<nat> -> Option<nat>)
    requires Start(s) && Live(Run(s, trace).objects, operands)
    requires var t := Run(s, trace);
             && result in t.objects && t.objects[result].owned
             && other in t.objects && t.objects[other].owned
    ensures var t := Run(s, trace);
            var value := operation(ValuesOf(t.objects, operands));
            && (value.None? ==> Next(t, Call(operands, result, operation)) == t
                                && Next(t, Call(operands, other, operation)) == t)
            && (value.Some? ==> Next(t, Call(operands, result, operation))
                                == t.(objects := t.objects[result := Bignum(BIGNUM_MAGIC, true, value.value)])
                                && Next(t, Call(operands, other, operation))
                                   == t.(objects := t.objects[other := Bignum(BIGNUM_MAGIC, true, value.value)]))
  {
    RunKeepsInv(s, trace);
    var t := Run(s, trace);
    LivePointersAccepted(t, operands, result);
    LivePointersAccepted(t, operands, other);
    ClonesAreValues(t, operands);
  }

  // ----- what every call leaves alive -----

  /** A pointer no call accepts as an operand. */
  predicate BadPointer(s: State, p: nat)
    requires s.host.align > 0
  {
    p == 0 || p % s.host.align != 0 || p !in s.objects || s.objects[p].magic != BIGNUM_MAGIC
  }

  /** A call with a bad or borrowed result, a bad operand, or two operands or a result
      and an operand that partly overlap changes nothing. */
  lemma BadCallChangesNothing(s: State, operands: seq<nat>, result: nat, operation: seq<nat> -> Option<nat>)
    requires s.host.align > 0
    requires || BadPointer(s, result)
             || (result in s.objects && !s.objects[result].owned)
             || (exists i :: 0 <= i < |operands| && BadPointer(s, operands[i]))
             || (exists i :: 0 <= i < |operands| && !ObjectAliasIsValid(result, s.host.size, operands[i], s.host.size))
             || (exists i, j :: 0 <= j < i < |operands|
                                && !ObjectAliasIsValid(operands[i], s.host.size, operands[j], s.host.size))
    ensures Next(s, Call(operands, result, operation)) == s
  {
    if exists i :: 0 <= i < |operands| && BadPointer(s, operands[i]) {
      var i :| 0 <= i < |operands| && BadPointer(s, operands[i]);
      CloneOneMore(s.host, s.objects, operands, i);
    }
  }

  /** What a group holds: prime, order and the two coefficients, in that order, all
      borrowed; nothing else changes. */
  lemma EcInitInstallsConstants(s: State, base: nat)
    requires s.host.size > 0 && base !in s.groups && FieldsUnused(s, base)
    ensures var t := Next(s, EcInit(19, base));
            var first, size := base + s.host.head, s.host.size;
            && t.groups == s.groups + {base}
            && Holds(t, first, s.host.curve.prime) && Holds(t, first + size, s.host.curve.order)
            && Holds(t, first + 2 * size, s.host.curve.a) && Holds(t, first + 3 * size, s.host.curve.b)
            && (forall p :: p in s.objects ==> p in t.objects && t.objects[p] == s.objects[p])
            && (forall p :: p in t.objects && p !in s.objects ==>
                  p == first || p == first + size || p == first + 2 * size || p == first + 3 * size)
  {
    NewGroupIsIntact(s, base);
    forall p ensures p in Next(s, EcInit(19, base)).objects && p !in s.objects ==> p in Fields(s.host, base) {
      EcInitAdds(s, base, p);
    }
    FourHold(Next(s, EcInit(19, base)), base);
  }

  /** A borrowed constant is in place. */
  predicate Holds(s: State, p: nat, value: nat) {
    p in s.objects && s.objects[p] == Bignum(BIGNUM_MAGIC, false, value)
  }

  lemma FourHold(s: State, base: nat)
    requires Intact(s, base)
    ensures var first, size := base + s.host.head, s.host.size;
            && Holds(s, first, s.host.curve.prime) && Holds(s, first + size, s.host.curve.order)
            && Holds(s, first + 2 * size, s.host.curve.a) && Holds(s, first + 3 * size, s.host.curve.b)
  {
    var fields := Fields(s.host, base);
    assert fields[0] in s.objects && fields[1] in s.objects && fields[2] in s.objects && fields[3] in s.objects;
  }

  lemma UnusedIsNotLive(s: State, at: nat)
    requires s.host.size > 0 && Unused(s, at)
    ensures at !in s.objects
  {
    assert !Apart(s.host, at, at);
  }

  /** Deinitialising undoes initialising. */
  lemma DeinitUndoesInit(s: State, at: nat, value: nat)
    requires s.host.size > 0 && Unused(s, at)
    ensures Next(Next(s, Init(at, value)), Deinit(at)) == s
    ensures Next(s, Init(at, value)).objects == s.objects[at := Bignum(BIGNUM_MAGIC, true, value)]
  {
    UnusedIsNotLive(s, at);
    var t := Next(s, Init(at, value));
    assert Writable(t.host, t.objects, at);
    assert Next(t, Deinit(at)).objects == s.objects;
  }

  lemma EcDeinitUndoesEcInit(s: State, base: nat)
    requires s.host.size > 0 && base !in s.groups && FieldsUnused(s, base)
    ensures Next(Next(s, EcInit(GROUP_19, base)), EcDeinit(base)) == s
  {
    FieldsAdded(s, base, 4);
    var t := Next(s, EcInit(GROUP_19, base));
    var u := Next(t, EcDeinit(base));
    forall i | 0 <= i < 4 ensures Fields(s.host, base)[i] !in s.objects {
      UnusedIsNotLive(s, Fields(s.host, base)[i]);
    }
    forall p ensures p in u.objects <==> p in s.objects {
      if p in s.objects {
        assert p !in Fields(s.host, base);
      }
    }
    assert u.objects == s.objects && u.groups == s.groups;
  }

  /** The owned objects after a run and their values, from the arguments of its calls. */
  function Owned(s: State, trace: seq<Step>): map<nat, nat> {
    if trace == [] then map[]
    else
      var t, owned := Run(s, trace[..|trace| - 1]), Owned(s, trace[..|trace| - 1]);
      OwnedNext(t, owned, trace[|trace| - 1])
  }

  function OwnedNext(t: State, owned: map<nat, nat>, step: Step): map<nat, nat> {
    match step
    case Init(at, value) => if Unused(t, at) then owned[at := value] else owned
    case Deinit(pointer) => owned - {pointer}
    case Call(operands, result, operation) =>
      if result !in owned || !Live(t.objects, operands) then owned
      else
        var value := operation(ValuesOf(t.objects, operands));
        if value.Some? then owned[result := value.value] else owned
    case _ => owned
  }

  ghost predicate OwnedAre(s: State, owned: map<nat, nat>) {
    && (forall p :: p in owned <==> p in s.objects && s.objects[p].owned)
    && (forall p :: p in owned ==> s.objects[p].value == owned[p])
    && (forall p :: p in s.objects && !s.objects[p].owned ==> BelongsToGroup(s, p))
  }

  ghost predicate BelongsToGroup(s: State, p: nat) {
    exists g :: g in s.groups && p in Fields(s.host, g)
  }

  lemma OwnedByCall(s: State, owned: map<nat, nat>, operands: seq<nat>, result: nat, operation: seq<nat> -> Option<nat>)
    requires LayoutInv(s) && OwnedAre(s, owned)
    ensures OwnedAre(Next(s, Call(operands, result, operation)), OwnedNext(s, owned, Call(operands, result, operation)))
  {
    var step := Call(operands, result, operation);
    if result in owned && Live(s.objects, operands) {
      LivePointersAccepted(s, operands, result);
      ClonesAreValues(s, operands);
    } else {
      if result in owned {
        var i :| 0 <= i < |operands| && operands[i] !in s.objects;
        CloneOneMore(s.host, s.objects, operands, i);
      }
      assert Next(s, step).objects == s.objects;
    }
    BelongingStays(s, Next(s, step));
  }

  lemma BelongingStays(s: State, t: State)
    requires t.host == s.host && s.groups <= t.groups
    ensures forall p :: BelongsToGroup(s, p) ==> BelongsToGroup(t, p)
  {
  }

  lemma OwnedByEc(s: State, owned: map<nat, nat>, step: Step)
    requires LayoutInv(s) && GroupsInv(s) && OwnedAre(s, owned) && (step.EcInit? || step.EcDeinit?)
    ensures OwnedAre(Next(s, step), owned)
  {
    var t := Next(s, step);
    if step.EcInit? && t != s {
      OwnedByEcInit(s, owned, step.base);
    } else if step.EcDeinit? && step.context in s.groups {
      assert Intact(s, step.context);
      OwnedByEcDeinit(s, owned, step.context);
    }
  }

  lemma OwnedByEcInit(s: State, owned: map<nat, nat>, base: nat)
    requires LayoutInv(s) && OwnedAre(s, owned) && base !in s.groups && FieldsUnused(s, base)
    ensures OwnedAre(Next(s, EcInit(GROUP_19, base)), owned)
  {
    var t := Next(s, EcInit(GROUP_19, base));
    forall p
      ensures p in s.objects ==> p in t.objects && t.objects[p] == s.objects[p]
      ensures p in t.objects && p !in s.objects ==> !t.objects[p].owned && p in Fields(s.host, base)
    {
      EcInitAdds(s, base, p);
    }
    BelongingStays(s, t);
    assert base in t.groups;
  }

  lemma EcInitAdds(s: State, base: nat, p: nat)
    requires s.host.size > 0 && base !in s.groups && FieldsUnused(s, base)
    ensures var t := Next(s, EcInit(GROUP_19, base));
            && (p in s.objects ==> p in t.objects && t.objects[p] == s.objects[p])
            && (p in t.objects && p !in s.objects ==> !t.objects[p].owned && p in Fields(s.host, base))
  {
    FieldsAdded(s, base, 4);
  }

  lemma OwnedByEcDeinit(s: State, owned: map<nat, nat>, base: nat)
    requires Intact(s, base) && OwnedAre(s, owned) && base in s.groups
    ensures OwnedAre(Next(s, EcDeinit(base)), owned)
  {
    var t := Next(s, EcDeinit(base));
    forall p | p in owned ensures p !in Fields(s.host, base) {
      OwnedIsNoConstant(s, base, p);
    }
    forall p | p in t.objects && !t.objects[p].owned ensures BelongsToGroup(t, p) {
      OthersStillBelong(s, base, p);
    }
  }

  lemma OwnedIsNoConstant(s: State, base: nat, p: nat)
    requires Intact(s, base) && p in s.objects && s.objects[p].owned
    ensures p !in Fields(s.host, base)
  {
  }

  lemma OthersStillBelong(s: State, base: nat, p: nat)
    requires BelongsToGroup(s, p) && p !in Fields(s.host, base) && base in s.groups
    ensures BelongsToGroup(Next(s, EcDeinit(base)), p)
  {
    var g :| g in s.groups && p in Fields(s.host, g);
    assert g in Next(s, EcDeinit(base)).groups;
  }

  lemma OwnedByObject(s: State, owned: map<nat, nat>, step: Step)
    requires LayoutInv(s) && OwnedAre(s, owned) && (step.Init? || step.Deinit?)
    ensures OwnedAre(Next(s, step), OwnedNext(s, owned, step))
  {
    if step.Init? && Unused(s, step.at) {
      UnusedIsNotLive(s, step.at);
    }
    BelongingStays(s, Next(s, step));
  }

  /** After any run the live objects are exactly the owned ones, initialised and not
      deinitialised since and holding what the last successful call stored, and the four
      constants of each live group: nothing leaks and nothing else is freed. */
  lemma {:induction false} NothingLeaks(s: State, trace: seq<Step>)
    requires Start(s)
    ensures OwnedAre(Run(s, trace), Owned(s, trace))
  {
    if trace == [] {
    } else {
      var before, step := trace[..|trace| - 1], trace[|trace| - 1];
      NothingLeaks(s, before);
      RunKeepsInv(s, before);
      var t, owned := Run(s, before), Owned(s, before);
      match step
      case Call(operands, result, operation) => OwnedByCall(t, owned, operands, result, operation);
      case EcInit(_, _) => OwnedByEc(t, owned, step);
      case EcDeinit(_) => OwnedByEc(t, owned, step);
      case _ => OwnedByObject(t, owned, step);
    }
  }

  // ----- the field calls on objects -----

  function InverseOf(providers: SaeField.Providers): seq<nat> -> Option<nat> {
    (values: seq<nat>) => if |values| == 2 then SaeField.Inverse(values[0], values[1], providers) else None
  }

  function ExpModOf(providers: SaeField.Providers): seq<nat> -> Option<nat> {
    (values: seq<nat>) => if |values| == 3 then SaeField.ExpMod(values[0], values[1], values[2], providers) else None
  }

  /** After any run, `crypto_bignum_inverse` on objects holding the P-256 prime and a
      smaller value stores the one inverse of that value, also over its own operand, or
      changes nothing if the value is zero or the hardware fails. */
  lemma InverseCallIsCorrect(s: State, trace: seq<Step>, v: nat, m: nat, result: nat, providers: SaeField.Providers)
    requires NumberTheory.Prime(SaeField.P256_FIELD_PRIME) && SaeField.ComputesPower(providers.fieldPow)
    requires Start(s) && v in Run(s, trace).objects && m in Run(s, trace).objects
    requires result in Run(s, trace).objects && Run(s, trace).objects[result].owned
    requires Run(s, trace).objects[m].value == SaeField.P256_FIELD_PRIME > Run(s, trace).objects[v].value
    ensures var t := Run(s, trace);
            var x := t.objects[v].value;
            var next := Next(t, Call([v, m], result, InverseOf(providers)));
            if x == 0 || providers.fieldPow(SaeField.ToBE(x, SaeField.P256_ELEMENT_BYTES),
                                            SaeField.P256_INVERSE_EXPONENT).None?
            then next == t
            else && result in next.objects
                 && next == t.(objects := t.objects[result := Bignum(BIGNUM_MAGIC, true, next.objects[result].value)])
                 && IsInverse(next.objects[result].value, x, SaeField.P256_FIELD_PRIME)
  {
    InPlaceEqualsFresh(s, trace, [v, m], result, result, InverseOf(providers));
    var t := Run(s, trace);
    assert ValuesOf(t.objects, [v, m]) == [t.objects[v].value, t.objects[m].value];
    SaeField.InverseIsCorrect(t.objects[v].value, providers);
  }

  /** The only number below `p` whose product with `x` leaves one. */
  ghost predicate IsInverse(r: nat, x: nat, p: nat)
    requires p > 0
  {
    r < p && (r * x) % p == 1 && forall other: nat :: other < p && (other * x) % p == 1 ==> other == r
  }

  /** After any run, whatever `crypto_bignum_exptmod` stores is the modular power of the
      operands' values, and nothing else changes. */
  lemma ExpModCallIsCorrect(s: State, trace: seq<Step>, b: nat, e: nat, m: nat, result: nat,
                            providers: SaeField.Providers)
    requires NumberTheory.Prime(SaeField.P256_FIELD_PRIME) && SaeField.ComputesPower(providers.fieldPow)
    requires SaeField.SoftwareIsRight(providers)
    requires Start(s) && b in Run(s, trace).objects && e in Run(s, trace).objects && m in Run(s, trace).objects
    requires result in Run(s, trace).objects && Run(s, trace).objects[result].owned
    requires Run(s, trace).objects[m].value > 0
    ensures var t := Run(s, trace);
            var x, y, z := t.objects[b].value, t.objects[e].value, t.objects[m].value;
            var next := Next(t, Call([b, e, m], result, ExpModOf(providers)));
            if SaeField.ExpMod(x, y, z, providers).None? then next == t
            else next == t.(objects := t.objects[result := Bignum(BIGNUM_MAGIC, true, NumberTheory.Pow(x, y) % z)])
  {
    InPlaceEqualsFresh(s, trace, [b, e, m], result, result, ExpModOf(providers));
    var t := Run(s, trace);
    assert ValuesOf(t.objects, [b, e, m]) == [t.objects[b].value, t.objects[e].value, t.objects[m].value];
    SaeField.DispatchDoesNotShow(t.objects[b].value, t.objects[e].value, t.objects[m].value, providers);
  }

  // ----- the same calls in place -----

  /** The object a pointer names. */
  class BignumObject {
    const magic: u32
    const owned: bool
    var value: nat

    constructor Owned(v: nat)
      ensures magic == BIGNUM_MAGIC && owned && value == v
    {
      magic, owned, value := BIGNUM_MAGIC, true, v;
    }

    constructor Borrowed(v: nat)
      ensures magic == BIGNUM_MAGIC && !owned && value == v
    {
      magic, owned, value := BIGNUM_MAGIC, false, v;
    }
  }

  /** Addresses and the objects there, whatever their magic word says. */
  class Memory {
    const host: Host
    var objects: map<nat, BignumObject>

    constructor (h: Host)
      requires h.align > 0
      ensures Valid() && host == h && objects == map[]
    {
      host, objects := h, map[];
    }

    ghost predicate Valid()
      reads this
    {
      host.align > 0 && forall p, q :: p in objects && q in objects && p != q ==> objects[p] != objects[q]
    }

    ghost function View(): map<nat, Bignum>
      reads this, objects.Values
    {
      map p | p in objects :: Bignum(objects[p].magic, objects[p].owned, objects[p].value)
    }

    /** `bignum_clone` */
    method CloneAt(p: nat) returns (value: Option<nat>)
      requires Valid()
      ensures value == Clone(host, View(), p)
    {
      if p == 0 || p % host.align != 0 || p !in objects || objects[p].magic != BIGNUM_MAGIC {
        return None;
      }
      return Some(objects[p].value);
    }

    /** `bignum_store` */
    method StoreAt(p: nat, value: nat) returns (ok: bool)
      requires Valid()
      modifies objects.Values
      ensures Valid() && objects == old(objects)
      ensures ok == Writable(host, old(View()), p)
      ensures View() == if ok then old(View())[p := Bignum(BIGNUM_MAGIC, true, value)] else old(View())
    {
      if p == 0 || p % host.align != 0 || p !in objects {
        return false;
      }
      var target := objects[p];
      if target.magic != BIGNUM_MAGIC || !target.owned {
        return false;
      }
      assert target in objects.Values;
      target.value := value;
      return true;
    }

    method CloneAll(operands: seq<nat>) returns (values: Option<seq<nat>>)
      requires Valid()
      ensures values == ClonesOf(host, View(), operands)
    {
      var clones := [];
      for i := 0 to |operands|
        invariant ClonesOf(host, View(), operands[..i]) == Some(clones)
      {
        var clone := CloneAt(operands[i]);
        CloneOneMore(host, View(), operands, i);
        if clone.None? {
          return None;
        }
        clones := clones + [clone.value];
      }
      assert operands[..|operands|] == operands;
      return Some(clones);
    }

    /** The end every call shares: store what was computed, if anything was. */
    method Finish(result: nat, value: Option<nat>) returns (code: int)
      requires Valid()
      modifies objects.Values
      ensures Valid() && objects == old(objects) && (code == 0 || code == -1)
      ensures code == 0 <==> value.Some? && Writable(host, old(View()), result)
      ensures View() == if code == 0 then old(View())[result := Bignum(BIGNUM_MAGIC, true, value.value)] else old(View())
    {
      if value.None? {
        return -1;
      }
      var stored := StoreAt(result, value.value);
      return if stored then 0 else -1;
    }

    /** The common body of the two- and three-operand calls: test the pointers, clone
        every operand, compute, store.  `result` may be one of the operands. */
    method Compute(operands: seq<nat>, result: nat, operation: seq<nat> -> Option<nat>) returns (code: int)
      requires Valid()
      modifies objects.Values
      ensures Valid() && objects == old(objects) && (code == 0 || code == -1)
      ensures code == 0 <==> Outcome(host, old(View()), operands, result, operation).Some?
                             && Writable(host, old(View()), result)
      ensures View() == AfterCall(host, old(View()), operands, result, operation)
    {
      var aliases := BignumAliases(result, operands, host.size);
      if !aliases {
        return -1;
      }
      var clones := CloneAll(operands);
      if clones.None? {
        return -1;
      }
      code := Finish(result, operation(clones.value));
    }

    method Sample(result: nat, modulus: nat, entropy: SaeRandom.Entropy) returns (r: Option<nat>, ghost draws: nat)
      requires Valid() && SaeRandom.FillsWidth(entropy)
      ensures var bound := Clone(host, View(), modulus);
              if AliasesValid(result, [modulus], host.size) && bound.Some?
              then SaeRandom.Sampled(bound.value, entropy, r, draws) else r.None? && draws == 0
    {
      var aliases := BignumAliases(result, [modulus], host.size);
      if !aliases {
        return None, 0;
      }
      var bound := CloneAt(modulus);
      if bound.None? {
        return None, 0;
      }
      r, draws := SaeRandom.RandomBelow(bound.value, entropy);
    }

    /** `crypto_bignum_rand` */
    method Rand(result: nat, modulus: nat, entropy: SaeRandom.Entropy) returns (code: int, ghost r: Option<nat>, ghost draws: nat)
      requires Valid() && SaeRandom.FillsWidth(entropy)
      modifies objects.Values
      ensures Valid() && objects == old(objects) && (code == 0 || code == -1)
      ensures var bound := Clone(host, old(View()), modulus);
              if AliasesValid(result, [modulus], host.size) && bound.Some?
              then SaeRandom.Sampled(bound.value, entropy, r, draws) else r.None? && draws == 0
      ensures code == 0 <==> r.Some? && Writable(host, old(View()), result)
      ensures View() == if code == 0 then old(View())[result := Bignum(BIGNUM_MAGIC, true, r.value)] else old(View())
    {
      var sample;
      sample, draws := Sample(result, modulus, entropy);
      r := sample;
      code := Finish(result, sample);
    }
  }
}
