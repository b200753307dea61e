/** Where a returned MAC comes from: books kept beside a run of the system record every
    key call, which keyslot each start read and when, and which hardware steps succeeded. */
module CryptoOrigins {
  import opened Common
  import opened CryptoHandles
  import opened CryptoTables
  import opened CryptoOps
  import opened CryptoMaps
  import opened CryptoRuns

  /** A start read `keyslot` after `at` key calls. */
  datatype Read = Read(keyslot: u32, at: nat)

  /** An update of taking `epoch` whose hardware step succeeded. */
  datatype Success = Success(engine: Engine, index: SlotIndex, epoch: nat, key: Bytes, input: Bytes)

  /** `starts` by the flight of the start, `origins` by the entry of `issued`. */
  datatype Books = Books(calls: seq<KeyCall>, starts: map<nat, Read>, origins: seq<Read>, succeeded: set<Success>)

  const NO_BOOKS := Books([], map[], [], {})

  function Note(hw: Hardware, s: Sys, b: Books, step: Step): Books {
    var next := Next(hw, s, step);
    match step
    case ManageKeys(call) => b.(calls := b.calls + [call])
    case ResetAll => b.(calls := b.calls + [ResetKeys])
    case StartRead(_, keyslot) =>
      if |next.flights| > |s.flights| then b.(starts := b.starts[|s.flights| := Read(keyslot, |b.calls|)]) else b
    case StartAllocate(i) =>
      if |next.issued| > |s.issued| && i in b.starts then b.(origins := b.origins + [b.starts[i]]) else b
    case UpdateEnd(i, ok) =>
      if ok && i < |s.flights| && s.flights[i].Updating? then
        var f := s.flights[i];
        b.(succeeded := b.succeeded + {Success(f.engine, f.index, f.epoch, f.key, f.input)})
      else b
    case _ => b
  }

  datatype Noted = Noted(s: Sys, b: Books)

  function NotedRun(hw: Hardware, from: Noted, trace: seq<Step>): Noted
    decreases |trace|
  {
    if trace == [] then from
    else NotedRun(hw, Noted(Next(hw, from.s, trace[0]), Note(hw, from.s, from.b, trace[0])), trace[1..])
  }

  lemma {:induction false} NotedRunIsRun(hw: Hardware, from: Noted, trace: seq<Step>)
    ensures NotedRun(hw, from, trace).s == Run(hw, from.s, trace)
    decreases |trace|
  {
    if trace == [] {
    } else {
      NotedRunIsRun(hw, Noted(Next(hw, from.s, trace[0]), Note(hw, from.s, from.b, trace[0])), trace[1..]);
    }
  }

  // ----- what the books keep -----

  /** The read found `key` in its keyslot. */
  predicate Found(calls: seq<KeyCall>, r: Read, e: Engine, key: Bytes) {
    r.at <= |calls| && KeyslotMaterial(KeysAfter(calls[..r.at]), r.keyslot, KindOf(e)) == Some(key)
  }

  predicate ReadsInv(s: Sys, b: Books) {
    && (forall i :: 0 <= i < |s.flights| && s.flights[i].Starting? ==>
          i in b.starts && Found(b.calls, b.starts[i], s.flights[i].engine, s.flights[i].key))
    && |b.origins| == |s.issued|
    && (forall i :: 0 <= i < |s.issued| ==> Found(b.calls, b.origins[i], s.issued[i].engine, s.issued[i].key))
  }

  /** Every result in a slot's history was computed by a step that succeeded. */
  predicate SlotEndsInv(e: Engine, index: SlotIndex, h: SlotHistory, succeeded: set<Success>) {
    forall n :: n in h.ends ==>
      && h.ends[n] in h.keys && h.ends[n] in h.inputs
      && Success(e, index, h.ends[n], h.keys[h.ends[n]], h.inputs[h.ends[n]]) in succeeded
  }

  predicate EndsInv(s: Sys, b: Books) {
    forall e: Engine, index: SlotIndex :: SlotEndsInv(e, index, TableOf(s, e).history[index], b.succeeded)
  }

  lemma FoundSurvives(calls: seq<KeyCall>, call: KeyCall, r: Read, e: Engine, key: Bytes)
    requires Found(calls, r, e, key)
    ensures Found(calls + [call], r, e, key)
  {
    assert (calls + [call])[..r.at] == calls[..r.at];
  }

  lemma KeyCallKeepsReads(s: Sys, b: Books, call: KeyCall)
    requires ReadsInv(s, b)
    ensures ReadsInv(s, b.(calls := b.calls + [call]))
  {
    forall i | 0 <= i < |s.flights| && s.flights[i].Starting?
      ensures Found(b.calls + [call], b.starts[i], s.flights[i].engine, s.flights[i].key)
    {
      FoundSurvives(b.calls, call, b.starts[i], s.flights[i].engine, s.flights[i].key);
    }
    forall i | 0 <= i < |s.issued| ensures Found(b.calls + [call], b.origins[i], s.issued[i].engine, s.issued[i].key) {
      FoundSurvives(b.calls, call, b.origins[i], s.issued[i].engine, s.issued[i].key);
    }
  }

  lemma StepKeepsCalls(hw: Hardware, s: Sys, b: Books, step: Step)
    requires s.keys == KeysAfter(b.calls)
    ensures Next(hw, s, step).keys == KeysAfter(Note(hw, s, b, step).calls)
  {
    match step
    case ManageKeys(call) => KeyRunThenCall(NewKeys(), b.calls, call);
    case ResetAll => KeyRunThenCall(NewKeys(), b.calls, ResetKeys);
    case _ =>
  }

  lemma StartReadKeepsReads(hw: Hardware, s: Sys, b: Books, e: Engine, keyslot: u32)
    requires s.keys == KeysAfter(b.calls) && ReadsInv(s, b)
    ensures ReadsInv(Next(hw, s, StartRead(e, keyslot)), Note(hw, s, b, StartRead(e, keyslot)))
  {
    assert b.calls[..|b.calls|] == b.calls;
  }

  lemma AllocateKeepsReads(hw: Hardware, s: Sys, b: Books, i: nat)
    requires ReadsInv(s, b)
    ensures ReadsInv(Next(hw, s, StartAllocate(i)), Note(hw, s, b, StartAllocate(i)))
  {
  }

  /** Flights that land or begin an update ask nothing of the books. */
  lemma NoStartKeepsReads(s: Sys, next: Sys, b: Books, later: Books)
    requires ReadsInv(s, b) && next.issued == s.issued && later == b.(succeeded := later.succeeded)
    requires forall i :: 0 <= i < |next.flights| && next.flights[i].Starting? ==>
               i < |s.flights| && next.flights[i] == s.flights[i]
    ensures ReadsInv(next, later)
  {
  }

  lemma UpdateKeepsReads(hw: Hardware, s: Sys, b: Books, step: Step)
    requires ReadsInv(s, b) && (step.UpdateBegin? || step.UpdateEnd? || step.FinishCall? || step.DestroyMac? || step.Deinit?)
    ensures ReadsInv(Next(hw, s, step), Note(hw, s, b, step))
  {
    NoStartKeepsReads(s, Next(hw, s, step), b, Note(hw, s, b, step));
  }

  lemma StepKeepsReads(hw: Hardware, s: Sys, b: Books, step: Step)
    requires s.keys == KeysAfter(b.calls) && ReadsInv(s, b)
    ensures ReadsInv(Next(hw, s, step), Note(hw, s, b, step))
  {
    match step
    case ManageKeys(call) => KeyCallKeepsReads(s, b, call);
    case ResetAll => KeyCallKeepsReads(s, b, ResetKeys);
    case StartRead(e, keyslot) => StartReadKeepsReads(hw, s, b, e, keyslot);
    case StartAllocate(i) => AllocateKeepsReads(hw, s, b, i);
    case _ => UpdateKeepsReads(hw, s, b, step);
  }

  lemma GrowthKeepsEnds(s: Sys, next: Sys, b: Books)
    requires EndsInv(s, b) && SysGrows(s, next)
    requires forall e: Engine, index: SlotIndex :: TableOf(next, e).history[index].ends == TableOf(s, e).history[index].ends
    ensures EndsInv(next, b)
  {
    forall e: Engine, index: SlotIndex
      ensures SlotEndsInv(e, index, TableOf(next, e).history[index], b.succeeded)
    {
      assert SlotEndsInv(e, index, TableOf(s, e).history[index], b.succeeded);
      assert Grows(TableOf(s, e).history[index], TableOf(next, e).history[index]);
    }
  }

  lemma EndsUntouched(hw: Hardware, s: Sys, step: Step, e: Engine, index: SlotIndex)
    requires !step.UpdateEnd?
    ensures TableOf(Next(hw, s, step), e).history[index].ends == TableOf(s, e).history[index].ends
  {
  }

  lemma StepKeepsEnds(hw: Hardware, s: Sys, b: Books, step: Step)
    requires EndsInv(s, b) && !step.UpdateEnd? && SysGrows(s, Next(hw, s, step))
    ensures EndsInv(Next(hw, s, step), b)
  {
    forall e: Engine, index: SlotIndex
      ensures TableOf(Next(hw, s, step), e).history[index].ends == TableOf(s, e).history[index].ends
    {
      EndsUntouched(hw, s, step, e, index);
    }
    GrowthKeepsEnds(s, Next(hw, s, step), b);
  }

  lemma UpdateEndKeepsEnds(hw: Hardware, s: Sys, b: Books, i: nat, ok: bool)
    requires EndsInv(s, b) && i < |s.flights| && s.flights[i].Updating? && GoodFlight(s, s.flights[i])
    ensures EndsInv(Next(hw, s, UpdateEnd(i, ok)), Note(hw, s, b, UpdateEnd(i, ok)))
  {
    var f, next, more := s.flights[i], Next(hw, s, UpdateEnd(i, ok)), Note(hw, s, b, UpdateEnd(i, ok)).succeeded;
    forall e: Engine, index: SlotIndex
      ensures SlotEndsInv(e, index, TableOf(next, e).history[index], more)
    {
      assert SlotEndsInv(e, index, TableOf(s, e).history[index], b.succeeded);
    }
  }

  /** Most steps leave every history as it is. */
  lemma QuietGrows(hw: Hardware, s: Sys, step: Step)
    requires step.ManageKeys? || step.StartRead? || step.FinishCall? || step.DestroyMac? || step.Deinit? || step.ResetAll?
    ensures SysGrows(s, Next(hw, s, step))
  {
    var next := Next(hw, s, step);
    assert next.hashes.history == s.hashes.history && next.macs.history == s.macs.history;
  }

  lemma StepGrows(hw: Hardware, s: Sys, step: Step)
    requires TablesInv(hw, s) && !step.UpdateEnd?
    ensures SysGrows(s, Next(hw, s, step))
  {
    match step
    case StartAllocate(i) =>
      if i < |s.flights| && s.flights[i].Starting? {
        StartAllocateTables(hw, s, i);
      }
    case UpdateBegin(e, handle, input) => UpdateBeginTables(hw, s, e, handle, input);
    case _ => QuietGrows(hw, s, step);
  }

  lemma StepKeepsBooks(hw: Hardware, s: Sys, b: Books, step: Step)
    requires Inv(hw, s) && GoodHardware(hw) && EndsInv(s, b)
    ensures EndsInv(Next(hw, s, step), Note(hw, s, b, step))
  {
    if step.UpdateEnd? {
      if step.flight < |s.flights| && s.flights[step.flight].Updating? {
        UpdateEndKeepsEnds(hw, s, b, step.flight, step.hardwareOk);
      }
    } else {
      StepGrows(hw, s, step);
      StepKeepsEnds(hw, s, b, step);
    }
  }

  lemma {:induction false} BooksAreKept(hw: Hardware, from: Noted, trace: seq<Step>)
    requires Inv(hw, from.s) && GoodHardware(hw)
    requires from.s.keys == KeysAfter(from.b.calls) && ReadsInv(from.s, from.b) && EndsInv(from.s, from.b)
    ensures var (s, b) := (NotedRun(hw, from, trace).s, NotedRun(hw, from, trace).b);
            Inv(hw, s) && s.keys == KeysAfter(b.calls) && ReadsInv(s, b) && EndsInv(s, b)
    decreases |trace|
  {
    if trace == [] {
    } else {
      var s, b, step := from.s, from.b, trace[0];
      StepKeepsTables(hw, s, step);
      StepKeepsLog(hw, s, step);
      StepKeepsCalls(hw, s, b, step);
      StepKeepsReads(hw, s, b, step);
      StepKeepsBooks(hw, s, b, step);
      BooksAreKept(hw, Noted(Next(hw, s, step), Note(hw, s, b, step)), trace[1..]);
    }
  }

  // ----- the origin of every output -----

  /** Some interleaving leads to `s`, with the books `b` kept along the way. */
  ghost predicate ReachedWith(hw: Hardware, s: Sys, b: Books) {
    exists trace :: NotedRun(hw, Noted(Init(), NO_BOOKS), trace) == Noted(s, b)
  }

  /** Every run has its books. */
  lemma RunsHaveBooks(hw: Hardware, trace: seq<Step>)
    ensures ReachedWith(hw, Run(hw, Init(), trace), NotedRun(hw, Noted(Init(), NO_BOOKS), trace).b)
  {
    NotedRunIsRun(hw, Noted(Init(), NO_BOOKS), trace);
  }

  lemma ReachedInv(hw: Hardware, s: Sys, b: Books)
    requires GoodHardware(hw) && ReachedWith(hw, s, b)
    ensures Reachable(hw, s) && Inv(hw, s)
    ensures s.keys == KeysAfter(b.calls) && ReadsInv(s, b) && EndsInv(s, b)
  {
    var trace :| NotedRun(hw, Noted(Init(), NO_BOOKS), trace) == Noted(s, b);
    InitInv(hw);
    NotedRunIsRun(hw, Noted(Init(), NO_BOOKS), trace);
    BooksAreKept(hw, Noted(Init(), NO_BOOKS), trace);
  }

  /** Every output a finish ever returned was computed by a hardware step that
      succeeded, on the key and the input of that step's own update. */
  lemma OutputsComeFromSuccess(hw: Hardware, s: Sys, b: Books, f: nat)
    requires GoodHardware(hw) && ReachedWith(hw, s, b) && f < |s.finished|
    ensures var finish := s.finished[f];
            var h := TableOf(s, finish.engine).history[finish.index];
            && Ended(h, finish.epoch)
            && var n := h.ends[finish.epoch];
               && Success(finish.engine, finish.index, n, h.keys[n], h.inputs[n]) in b.succeeded
               && finish.output == Mac(hw, finish.engine, h.keys[n], h.inputs[n])
  {
    ReachedInv(hw, s, b);
    var finish := s.finished[f];
    assert GoodFinish(hw, s, finish);
    assert SlotEndsInv(finish.engine, finish.index, TableOf(s, finish.engine).history[finish.index], b.succeeded);
  }

  /** The key of every start that got a handle is the clear key last set, when it read
      its keyslot, through a ladder since that keyslot was created. */
  lemma IssuedKeyIsLastClearKey(hw: Hardware, s: Sys, b: Books, i: nat)
    requires GoodHardware(hw) && ReachedWith(hw, s, b) && i < |s.issued|
    ensures i < |b.origins| && b.origins[i].at <= |b.calls|
    ensures LastKey(b.calls[..b.origins[i].at], b.origins[i].keyslot) == Some(s.issued[i].key)
  {
    ReachedInv(hw, s, b);
    var origin, issue := b.origins[i], s.issued[i];
    assert Found(b.calls, origin, issue.engine, issue.key);
    StartReadsLastKey(b.calls[..origin.at], origin.keyslot, KindOf(issue.engine));
  }

  /** Down to the clear key: a finish through the handle of a start, used before it is a
      whole period old and ended by an update less than a period old, returned the MAC of
      the clear key last set in the keyslot the start read and of the input of an update
      whose hardware step succeeded. */
  lemma FinishDownToClearKey(hw: Hardware, s: Sys, b: Books, i: nat, f: nat)
    requires GoodHardware(hw) && ReachedWith(hw, s, b)
    requires i < |s.issued| && f < |s.finished| && s.issued[i].engine == s.finished[f].engine
    requires s.finished[f].handle == EncodeHandle(s.issued[i].index, GenerationAfter(s.issued[i].epoch))
    requires s.issued[i].epoch <= s.finished[f].epoch < s.issued[i].epoch + PERIOD
    requires var h := TableOf(s, s.issued[i].engine).history[s.issued[i].index];
             s.issued[i].epoch in h.ends ==> s.issued[i].epoch - h.ends[s.issued[i].epoch] < PERIOD
    ensures i < |b.origins| && b.origins[i].at <= |b.calls|
    ensures var issue := s.issued[i];
            var clear := LastKey(b.calls[..b.origins[i].at], b.origins[i].keyslot);
            var h := TableOf(s, issue.engine).history[issue.index];
            && clear.Some? && issue.epoch in h.inputs
            && Success(issue.engine, issue.index, issue.epoch, clear.value, h.inputs[issue.epoch]) in b.succeeded
            && s.finished[f].output == (if issue.engine == HmacSm3 then hw.hmacSm3(clear.value, h.inputs[issue.epoch])
                                        else hw.aesCmac(clear.value, h.inputs[issue.epoch]))
            && |s.finished[f].output| == (if issue.engine == HmacSm3 then 32 else 16)
  {
    IssuedKeyIsLastClearKey(hw, s, b, i);
    OutputsComeFromSuccess(hw, s, b, f);
    assert Reachable(hw, s) && GoodIssue(s, s.issued[i]) by {
      ReachedInv(hw, s, b);
    }
    FinishIsExact(hw, s, i, f);
    var issue := s.issued[i];
    var h := TableOf(s, issue.engine).history[issue.index];
    NearEndIsOwn(h, issue.epoch);
    assert |Mac(hw, issue.engine, issue.key, h.inputs[issue.epoch])| == LengthOf(issue.engine);
  }

  lemma NearEndIsOwn(h: SlotHistory, n: nat)
    requires Ended(h, n) && n - h.ends[n] < PERIOD
    ensures h.ends[n] == n
  {
  }
}
