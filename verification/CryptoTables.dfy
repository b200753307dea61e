/** The two-slot tables of keyslots and key ladders behind the vendor
    unified-cipher calls.  Every function is the body of one critical section. */
module CryptoTables {
  import opened Common
  import opened CryptoHandles

  const KEY_BYTES: nat := 64
  const RESULT_BYTES: nat := 32
  const KEYSLOT_MCIPHER: u32 := 0
  const KEYSLOT_HMAC: u32 := 1
  const DEST_MCIPHER: u32 := 0
  const DEST_HMAC: u32 := 1
  const ENGINE_AES: u32 := 0x20
  const ENGINE_SM3_HMAC: u32 := 0xa2
  const HMAC_SM3: u32 := 0x30
  const UNSET: u32 := 0xffff_ffff

  type KeyArray = b: Bytes | |b| == KEY_BYTES witness Zeros(KEY_BYTES)
  type KeyLength = n: nat | n <= KEY_BYTES
  type ResultArray = b: Bytes | |b| == RESULT_BYTES witness Zeros(RESULT_BYTES)
  type ResultLength = n: nat | n <= RESULT_BYTES
  type SlotIndex = n: nat | n < SLOT_COUNT

  datatype Keyslot = Keyslot(generation: u32, kind: u32, keyLen: KeyLength, inUse: bool, key: KeyArray)

  datatype Klad = Klad(generation: u32, destination: u32, keyslot: u32, engine: u32, inUse: bool)

  /** `state`: 0 free, 1 started, 2 hardware running, 3 result ready. */
  datatype CryptoOp = CryptoOp(generation: u32, state: nat, keyLen: KeyLength, resultLen: ResultLength,
                               key: KeyArray, result: ResultArray)

  function Zeros(n: nat): (z: Bytes)
    ensures |z| == n && forall i :: 0 <= i < n ==> z[i] == 0
  {
    seq(n, _ => 0)
  }

  function Pad(bytes: Bytes, n: nat): (r: Bytes)
    requires |bytes| <= n
    ensures |r| == n && r[..|bytes|] == bytes && r[|bytes|..] == Zeros(n - |bytes|)
  {
    bytes + Zeros(n - |bytes|)
  }

  function Cleared(op: CryptoOp): CryptoOp {
    CryptoOp(op.generation, 0, 0, 0, Zeros(KEY_BYTES), Zeros(RESULT_BYTES))
  }

  /** The first index whose element satisfies `p`, as the iterator's `find` yields it. */
  function FirstIndex<T>(s: seq<T>, p: T -> bool, from: nat := 0): (r: Option<nat>)
    requires from <= |s|
    ensures r.Some? ==> from <= r.value < |s| && p(s[r.value]) && forall i :: from <= i < r.value ==> !p(s[i])
    ensures r.None? ==> forall i :: from <= i < |s| ==> !p(s[i])
    decreases |s| - from
  {
    if from == |s| then None
    else if p(s[from]) then Some(from)
    else FirstIndex(s, p, from + 1)
  }

  // ----- keyslots and ladders -----

  const EMPTY_KEYSLOT := Keyslot(0, 0, 0, false, Zeros(KEY_BYTES))
  const EMPTY_KLAD := Klad(0, UNSET, 0, UNSET, false)

  type Keyslots = s: seq<Keyslot> | |s| == SLOT_COUNT witness [EMPTY_KEYSLOT, EMPTY_KEYSLOT]
  type Klads = s: seq<Klad> | |s| == SLOT_COUNT witness [EMPTY_KLAD, EMPTY_KLAD]

  datatype Keys = Keys(keyslots: Keyslots, klads: Klads)

  function NewKeys(): Keys {
    Keys([EMPTY_KEYSLOT, EMPTY_KEYSLOT], [EMPTY_KLAD, EMPTY_KLAD])
  }

  datatype KeysAnd<+T> = KeysAnd(keys: Keys, value: T)

  function FreeKeyslot(k: Keys): (r: Option<nat>)
    ensures r.Some? ==> r.value < SLOT_COUNT && !k.keyslots[r.value].inUse
  {
    FirstIndex(k.keyslots, (slot: Keyslot) => !slot.inUse)
  }

  function FreeKlad(k: Keys): (r: Option<nat>)
    ensures r.Some? ==> r.value < SLOT_COUNT && !k.klads[r.value].inUse
  {
    FirstIndex(k.klads, (klad: Klad) => !klad.inUse)
  }

  function KeyslotCreate(k: Keys, kind: u32): (r: KeysAnd<Option<u32>>)
  {
    var free := FreeKeyslot(k);
    if (kind != KEYSLOT_MCIPHER && kind != KEYSLOT_HMAC) || free.None? then KeysAnd(k, None)
    else
      var generation := NextGeneration(k.keyslots[free.value].generation);
      KeysAnd(k.(keyslots := k.keyslots[free.value := Keyslot(generation, kind, 0, true, Zeros(KEY_BYTES))]),
              Some(EncodeHandle(free.value, generation)))
  }

  function KeyslotDestroy(k: Keys, handle: u32): (r: KeysAnd<bool>)
  {
    match DecodeHandle(handle)
    case None => KeysAnd(k, false)
    case Some((index, generation)) =>
      var slot := k.keyslots[index];
      if (exists i :: 0 <= i < |k.klads| && k.klads[i].inUse && k.klads[i].keyslot == handle)
         || !slot.inUse || slot.generation != generation then KeysAnd(k, false)
      else KeysAnd(k.(keyslots := k.keyslots[index := slot.(key := Zeros(KEY_BYTES), keyLen := 0, inUse := false)]), true)
  }

  function KladCreate(k: Keys): (r: KeysAnd<Option<u32>>)
  {
    var free := FreeKlad(k);
    if free.None? then KeysAnd(k, None)
    else
      var generation := NextGeneration(k.klads[free.value].generation);
      KeysAnd(k.(klads := k.klads[free.value := Klad(generation, UNSET, 0, UNSET, true)]),
              Some(EncodeHandle(free.value, generation)))
  }

  predicate LiveKlad(k: Keys, handle: u32)
  {
    var d := DecodeHandle(handle);
    d.Some? && k.klads[d.value.0].inUse && k.klads[d.value.0].generation == d.value.1
  }

  predicate LiveKeyslot(k: Keys, handle: u32)
  {
    var d := DecodeHandle(handle);
    d.Some? && k.keyslots[d.value.0].inUse && k.keyslots[d.value.0].generation == d.value.1
  }

  function Index(handle: u32): SlotIndex
    requires DecodeHandle(handle).Some?
  {
    DecodeHandle(handle).value.0
  }

  function SetKlad(k: Keys, handle: u32, klad: Klad): Keys
    requires DecodeHandle(handle).Some?
  {
    k.(klads := k.klads[Index(handle) := klad])
  }

  function KladDestroy(k: Keys, handle: u32): (r: KeysAnd<bool>)
  {
    if !LiveKlad(k, handle) || k.klads[Index(handle)].keyslot != 0 then KeysAnd(k, false)
    else KeysAnd(SetKlad(k, handle, k.klads[Index(handle)].(inUse := false, destination := UNSET, engine := UNSET)), true)
  }

  predicate Compatible(destination: u32, kind: u32) {
    (destination == DEST_MCIPHER && kind == KEYSLOT_MCIPHER) || (destination == DEST_HMAC && kind == KEYSLOT_HMAC)
  }

  function KladAttach(k: Keys, handle: u32, destination: u32, keyslot: u32): (r: KeysAnd<bool>)
  {
    if !LiveKlad(k, handle) || k.klads[Index(handle)].keyslot != 0 || !LiveKeyslot(k, keyslot)
       || !Compatible(destination, k.keyslots[Index(keyslot)].kind) then KeysAnd(k, false)
    else KeysAnd(SetKlad(k, handle, k.klads[Index(handle)].(destination := destination, keyslot := keyslot)), true)
  }

  function KladDetach(k: Keys, handle: u32, destination: u32, keyslot: u32): (r: KeysAnd<bool>)
  {
    if !LiveKlad(k, handle) || k.klads[Index(handle)].destination != destination
       || k.klads[Index(handle)].keyslot != keyslot then KeysAnd(k, false)
    else KeysAnd(SetKlad(k, handle, k.klads[Index(handle)].(destination := UNSET, keyslot := 0)), true)
  }

  function KladSetAttr(k: Keys, handle: u32, engine: u32): (r: KeysAnd<bool>)
  {
    if (engine != ENGINE_AES && engine != ENGINE_SM3_HMAC) || !LiveKlad(k, handle) then KeysAnd(k, false)
    else KeysAnd(SetKlad(k, handle, k.klads[Index(handle)].(engine := engine)), true)
  }

  predicate ValidProfile(klad: Klad, kind: u32, keyLength: nat, hmacType: u32) {
    if klad.destination == DEST_HMAC && klad.engine == ENGINE_SM3_HMAC && kind == KEYSLOT_HMAC then hmacType == HMAC_SM3
    else klad.destination == DEST_MCIPHER && klad.engine == ENGINE_AES && kind == KEYSLOT_MCIPHER && keyLength == 16
  }

  function KladSetClearKey(k: Keys, handle: u32, key: Bytes, hmacType: u32): (r: KeysAnd<bool>)
  {
    if |key| == 0 || |key| > KEY_BYTES || !LiveKlad(k, handle) then KeysAnd(k, false)
    else
      var klad := k.klads[Index(handle)];
      if !LiveKeyslot(k, klad.keyslot) then KeysAnd(k, false)
      else
        var slot := k.keyslots[Index(klad.keyslot)];
        if !ValidProfile(klad, slot.kind, |key|, hmacType) then KeysAnd(k, false)
        else KeysAnd(k.(keyslots := k.keyslots[Index(klad.keyslot) := slot.(key := Pad(key, KEY_BYTES), keyLen := |key|)]), true)
  }

  predicate GoodKeyslot(slot: Keyslot) {
    && slot.generation < GENERATIONS
    && (forall i :: slot.keyLen <= i < KEY_BYTES ==> slot.key[i] == 0)
    && (!slot.inUse ==> slot.keyLen == 0)
    && (slot.inUse ==> slot.generation >= 1 && (slot.kind == KEYSLOT_MCIPHER || slot.kind == KEYSLOT_HMAC))
    && (slot.inUse && slot.kind == KEYSLOT_MCIPHER ==> slot.keyLen == 0 || slot.keyLen == 16)
  }

  /** A free ladder is detached and bare; an attached one points at a live
      keyslot of the generation its handle names and of the matching kind. */
  predicate GoodKlad(k: Keys, klad: Klad)
  {
    && klad.generation < GENERATIONS
    && (klad.inUse ==> klad.generation >= 1)
    && (!klad.inUse ==> klad.keyslot == 0 && klad.engine == UNSET)
    && (klad.keyslot == 0 ==> klad.destination == UNSET)
    && (klad.keyslot != 0 ==>
          LiveKeyslot(k, klad.keyslot) && Compatible(klad.destination, k.keyslots[Index(klad.keyslot)].kind))
  }

  predicate KeysInv(k: Keys) {
    && (forall i :: 0 <= i < SLOT_COUNT ==> GoodKeyslot(k.keyslots[i]))
    && (forall i :: 0 <= i < SLOT_COUNT ==> GoodKlad(k, k.klads[i]))
  }

  /** The key a start call reads from a keyslot. */
  function KeyslotMaterial(k: Keys, handle: u32, kind: u32): (r: Option<Bytes>)
  {
    if !LiveKeyslot(k, handle) then None
    else
      var slot := k.keyslots[Index(handle)];
      if slot.kind != kind || slot.keyLen == 0 then None
      else Some(slot.key[..slot.keyLen])
  }

  datatype KeyCall =
    | CreateKeyslot(kind: u32)
    | DestroyKeyslot(handle: u32)
    | CreateKlad
    | DestroyKlad(handle: u32)
    | Attach(handle: u32, destination: u32, keyslot: u32)
    | Detach(handle: u32, destination: u32, keyslot: u32)
    | SetAttr(handle: u32, engine: u32)
    | SetClearKey(handle: u32, key: Bytes, hmacType: u32)
    | ResetKeys

  function ResetKeyslots(k: Keys): Keys
  {
    Keys([EMPTY_KEYSLOT.(generation := k.keyslots[0].generation), EMPTY_KEYSLOT.(generation := k.keyslots[1].generation)],
         [EMPTY_KLAD.(generation := k.klads[0].generation), EMPTY_KLAD.(generation := k.klads[1].generation)])
  }

  function KeyStep(k: Keys, call: KeyCall): Keys
  {
    match call
    case CreateKeyslot(kind) => KeyslotCreate(k, kind).keys
    case DestroyKeyslot(handle) => KeyslotDestroy(k, handle).keys
    case CreateKlad => KladCreate(k).keys
    case DestroyKlad(handle) => KladDestroy(k, handle).keys
    case Attach(handle, destination, keyslot) => KladAttach(k, handle, destination, keyslot).keys
    case Detach(handle, destination, keyslot) => KladDetach(k, handle, destination, keyslot).keys
    case SetAttr(handle, engine) => KladSetAttr(k, handle, engine).keys
    case SetClearKey(handle, key, hmacType) => KladSetClearKey(k, handle, key, hmacType).keys
    case ResetKeys => ResetKeyslots(k)
  }

  /** The call returns success. */
  predicate Succeeds(k: Keys, call: KeyCall) {
    match call
    case CreateKeyslot(kind) => KeyslotCreate(k, kind).value.Some?
    case DestroyKeyslot(handle) => KeyslotDestroy(k, handle).value
    case CreateKlad => KladCreate(k).value.Some?
    case DestroyKlad(handle) => KladDestroy(k, handle).value
    case Attach(handle, destination, keyslot) => KladAttach(k, handle, destination, keyslot).value
    case Detach(handle, destination, keyslot) => KladDetach(k, handle, destination, keyslot).value
    case SetAttr(handle, engine) => KladSetAttr(k, handle, engine).value
    case SetClearKey(handle, key, hmacType) => KladSetClearKey(k, handle, key, hmacType).value
    case ResetKeys => true
  }

  function KeyRun(k: Keys, calls: seq<KeyCall>): Keys
    decreases |calls|
  {
    if calls == [] then k else KeyRun(KeyStep(k, calls[0]), calls[1..])
  }

  lemma CreateKeepsKeys(k: Keys, kind: u32)
    requires KeysInv(k)
    ensures KeysInv(KeyslotCreate(k, kind).keys)
    ensures KeysInv(KladCreate(k).keys)
  {
  }

  /** Only one word names a slot and generation, so a keyslot some ladder is
      attached to cannot be destroyed through another handle. */
  lemma DestroyKeepsKeys(k: Keys, handle: u32)
    requires KeysInv(k)
    ensures KeysInv(KeyslotDestroy(k, handle).keys)
  {
    var r := KeyslotDestroy(k, handle);
    if r.value {
      forall i | 0 <= i < SLOT_COUNT
        ensures GoodKlad(r.keys, r.keys.klads[i])
      {
        var klad := k.klads[i];
        if klad.keyslot != 0 {
          EncodeDecoded(klad.keyslot);
          EncodeDecoded(handle);
        }
      }
    }
  }

  lemma LadderKeepsKeys(k: Keys, call: KeyCall)
    requires KeysInv(k)
    requires call.DestroyKlad? || call.Attach? || call.Detach? || call.SetAttr?
    ensures KeysInv(KeyStep(k, call))
  {
    if call.Attach? && KladAttach(k, call.handle, call.destination, call.keyslot).value {
      assert call.keyslot != 0;
    }
  }

  lemma SetClearKeyKeepsKeys(k: Keys, handle: u32, key: Bytes, hmacType: u32)
    requires KeysInv(k)
    ensures KeysInv(KladSetClearKey(k, handle, key, hmacType).keys)
  {
  }

  lemma KeyStepKeepsInv(k: Keys, call: KeyCall)
    requires KeysInv(k)
    ensures KeysInv(KeyStep(k, call))
  {
    match call
    case CreateKeyslot(kind) => CreateKeepsKeys(k, kind);
    case CreateKlad => CreateKeepsKeys(k, 0);
    case DestroyKeyslot(handle) => DestroyKeepsKeys(k, handle);
    case SetClearKey(handle, key, hmacType) => SetClearKeyKeepsKeys(k, handle, key, hmacType);
    case ResetKeys =>
    case _ => LadderKeepsKeys(k, call);
  }

  lemma {:induction false} KeyRunKeepsInv(k: Keys, calls: seq<KeyCall>)
    requires KeysInv(k)
    ensures KeysInv(KeyRun(k, calls))
    decreases |calls|
  {
    if calls == [] {
    } else {
      KeyStepKeepsInv(k, calls[0]);
      KeyRunKeepsInv(KeyStep(k, calls[0]), calls[1..]);
    }
  }

  /** Whatever the calls before, an MCIPHER keyslot that yields a key yields
      exactly 16 bytes and an HMAC keyslot at most 64; so the length test of the
      MAC start call never rejects. */
  lemma MaterialLengths(calls: seq<KeyCall>, handle: u32)
    ensures var k := KeyRun(NewKeys(), calls);
            && (KeyslotMaterial(k, handle, KEYSLOT_MCIPHER).Some? ==> |KeyslotMaterial(k, handle, KEYSLOT_MCIPHER).value| == 16)
            && (KeyslotMaterial(k, handle, KEYSLOT_HMAC).Some? ==> 1 <= |KeyslotMaterial(k, handle, KEYSLOT_HMAC).value| <= KEY_BYTES)
  {
    KeyRunKeepsInv(NewKeys(), calls);
  }

  /** A stale handle (its slot has moved to another generation, or is free) is
      refused by every call that takes one, changes nothing and yields no key. */
  lemma StaleKeyHandleRefused(k: Keys, call: KeyCall)
    requires (call.DestroyKeyslot? && !LiveKeyslot(k, call.handle))
          || ((call.DestroyKlad? || call.Attach? || call.Detach? || call.SetAttr? || call.SetClearKey?)
              && !LiveKlad(k, call.handle))
          || (call.Attach? && !LiveKeyslot(k, call.keyslot))
    ensures !Succeeds(k, call) && KeyStep(k, call) == k
    ensures call.DestroyKeyslot? ==> forall kind :: KeyslotMaterial(k, call.handle, kind).None?
  {
  }

  // ----- how long a key handle stays dead -----

  function GenerationOf(k: Keys, i: SlotIndex, ladder: bool): u32 {
    if ladder then k.klads[i].generation else k.keyslots[i].generation
  }

  /** The call takes keyslot (or ladder) `i`. */
  predicate Takes(k: Keys, call: KeyCall, i: SlotIndex, ladder: bool) {
    if ladder then call.CreateKlad? && FreeKlad(k) == Some(i)
    else call.CreateKeyslot? && (call.kind == KEYSLOT_MCIPHER || call.kind == KEYSLOT_HMAC) && FreeKeyslot(k) == Some(i)
  }

  lemma OnlyTakingAdvances(k: Keys, call: KeyCall, i: SlotIndex, ladder: bool)
    ensures GenerationOf(KeyStep(k, call), i, ladder)
         == if Takes(k, call, i, ladder) then NextGeneration(GenerationOf(k, i, ladder)) else GenerationOf(k, i, ladder)
  {
  }

  function Takings(k: Keys, calls: seq<KeyCall>, i: SlotIndex, ladder: bool): nat
    decreases |calls|
  {
    if calls == [] then 0
    else One(Takes(k, calls[0], i, ladder)) + Takings(KeyStep(k, calls[0]), calls[1..], i, ladder)
  }

  lemma {:induction false} GenerationCountsTakings(k: Keys, calls: seq<KeyCall>, i: SlotIndex, ladder: bool, before: nat)
    requires GenerationOf(k, i, ladder) == GenerationAfter(before)
    ensures GenerationOf(KeyRun(k, calls), i, ladder) == GenerationAfter(before + Takings(k, calls, i, ladder))
    decreases |calls|
  {
    if calls == [] {
    } else {
      var next, taken := KeyStep(k, calls[0]), One(Takes(k, calls[0], i, ladder));
      assert GenerationOf(next, i, ladder) == GenerationAfter(before + taken) by {
        OnlyTakingAdvances(k, calls[0], i, ladder);
        GenerationAdvances(before);
      }
      GenerationCountsTakings(next, calls[1..], i, ladder, before + taken);
    }
  }

  /** After any calls, a handle of an earlier taking of a slot is live exactly
      when the slot is in use and was taken a whole number of periods later. */
  lemma OldKeyHandleLiveIff(calls: seq<KeyCall>, i: SlotIndex, epoch: nat, ladder: bool)
    requires 1 <= epoch <= Takings(NewKeys(), calls, i, ladder)
    ensures var k := KeyRun(NewKeys(), calls);
            var handle := EncodeHandle(i, GenerationAfter(epoch));
            var again := (Takings(NewKeys(), calls, i, ladder) - epoch) % PERIOD == 0;
            if ladder then LiveKlad(k, handle) <==> k.klads[i].inUse && again
            else LiveKeyslot(k, handle) <==> k.keyslots[i].inUse && again
  {
    GenerationCountsTakings(NewKeys(), calls, i, ladder, 0);
    DecodeEncoded(i, GenerationAfter(epoch));
    GenerationsRepeat(epoch, Takings(NewKeys(), calls, i, ladder));
    LiveByGeneration(KeyRun(NewKeys(), calls), EncodeHandle(i, GenerationAfter(epoch)), i, GenerationAfter(epoch));
  }

  lemma LiveByGeneration(k: Keys, handle: u32, i: SlotIndex, generation: u32)
    requires DecodeHandle(handle) == Some((i, generation))
    ensures LiveKlad(k, handle) <==> k.klads[i].inUse && k.klads[i].generation == generation
    ensures LiveKeyslot(k, handle) <==> k.keyslots[i].inUse && k.keyslots[i].generation == generation
  {
  }
}
