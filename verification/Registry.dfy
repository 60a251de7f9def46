/** The hook table and the escape list, with the counters and the index that shadow them. */
module Registry {
  import opened Bits
  import opened MemoryManagement

  const MAX_HOOKS: nat := 64
  const KINDS: nat := 12
  const CODE_PRE: nat := 1
  const CODE_POST: nat := 2
  const MAX_ESCAPE: nat := 19

  /** A slot of the hook table; callbacks are known by a number. */
  datatype Hook = Hook(used: bool, handle: nat, kind: nat, callback: nat, begin: u64, end: u64)

  const FREE := Hook(false, 0, 0, 0, 0, 0)

  datatype Escape = Escape(handle: nat, id: nat, callback: nat, begin: u64, end: u64)

  /** What callers can observe: the table, the list and the next handle. */
  datatype Tables = Tables(hooks: seq<Hook>, escapes: seq<Escape>, next: nat)

  /** Two zeros cover every address, and an end of zero is open. */
  predicate RangeContains(begin: u64, end: u64, address: u64) {
    if begin == 0 && end == 0 then true else if end == 0 then address >= begin else begin <= address <= end
  }

  predicate SupportedKind(kind: nat) {
    1 <= kind <= 11
  }

  predicate IndexedId(id: nat) {
    1 <= id <= MAX_ESCAPE
  }

  predicate OfKind(h: Hook, kind: nat) {
    h.used && h.kind == kind
  }

  function CountKind(hooks: seq<Hook>, kind: nat): nat
    decreases |hooks|
  {
    if hooks == [] then 0 else BoolBit(OfKind(hooks[0], kind)) + CountKind(hooks[1..], kind)
  }

  // Operations on the tables.

  function FirstFree(hooks: seq<Hook>, i: nat): (k: nat)
    requires i <= |hooks|
    ensures i <= k <= |hooks|
    ensures k < |hooks| ==> !hooks[k].used
    ensures forall j :: i <= j < k ==> hooks[j].used
    decreases |hooks| - i
  {
    if i == |hooks| || !hooks[i].used then i else FirstFree(hooks, i + 1)
  }

  function AddHook(t: Tables, kind: nat, callback: nat, begin: u64, end: u64): (Tables, Option<nat>) {
    var k := FirstFree(t.hooks, 0);
    if !SupportedKind(kind) || k == |t.hooks| then (t, None)
    else (Tables(t.hooks[k := Hook(true, t.next, kind, callback, begin, end)], t.escapes, t.next + 1), Some(t.next))
  }

  function HookAt(hooks: seq<Hook>, handle: nat, i: nat): (k: nat)
    requires i <= |hooks|
    ensures i <= k <= |hooks|
    ensures k < |hooks| ==> hooks[k].used && hooks[k].handle == handle
    ensures forall j :: i <= j < k ==> !(hooks[j].used && hooks[j].handle == handle)
    decreases |hooks| - i
  {
    if i == |hooks| || (hooks[i].used && hooks[i].handle == handle) then i else HookAt(hooks, handle, i + 1)
  }

  function EscapeAt(escapes: seq<Escape>, handle: nat, i: nat): (k: nat)
    requires i <= |escapes|
    ensures i <= k <= |escapes|
    ensures k < |escapes| ==> escapes[k].handle == handle
    ensures forall j :: i <= j < k ==> escapes[j].handle != handle
    decreases |escapes| - i
  {
    if i == |escapes| || escapes[i].handle == handle then i else EscapeAt(escapes, handle, i + 1)
  }

  function Cut(escapes: seq<Escape>, e: nat): (rest: seq<Escape>)
    requires e < |escapes|
    ensures |rest| == |escapes| - 1
    ensures forall i :: 0 <= i < |rest| ==> rest[i] == escapes[if i < e then i else i + 1]
  {
    escapes[..e] + escapes[e + 1..]
  }

  function Delete(t: Tables, handle: nat): (Tables, bool) {
    var h := HookAt(t.hooks, handle, 0);
    var e := EscapeAt(t.escapes, handle, 0);
    if h < |t.hooks| then (t.(hooks := t.hooks[h := FREE]), true)
    else if e < |t.escapes| then (t.(escapes := Cut(t.escapes, e)), true)
    else (t, false)
  }

  /** The byte the index keeps for an id: one more than the last position under 255 that has it, or 0. */
  function Encoded(escapes: seq<Escape>, n: nat, id: nat): (k: nat)
    requires n <= |escapes|
    ensures k <= n && k <= 255
    ensures k > 0 ==> escapes[k - 1].id == id
    ensures forall j :: k <= j < n && j < 255 ==> escapes[j].id != id
  {
    if n == 0 then 0 else if escapes[n - 1].id == id && n - 1 < 255 then n else Encoded(escapes, n - 1, id)
  }

  function Indexed(escapes: seq<Escape>, id: nat): Option<Escape> {
    if IndexedId(id) && Encoded(escapes, |escapes|, id) > 0 then Some(escapes[Encoded(escapes, |escapes|, id) - 1])
        else None
  }

  function AddEscape(t: Tables, id: nat, callback: nat, begin: u64, end: u64): (Tables, Option<nat>) {
    if id == 0 || Indexed(t.escapes, id).Some? then (t, None)
    else (Tables(t.hooks, t.escapes + [Escape(t.next, id, callback, begin, end)], t.next + 1), Some(t.next))
  }

  // The index against a scan of the list.

  function Position(escapes: seq<Escape>, id: nat, i: nat): (k: nat)
    requires i <= |escapes|
    ensures i <= k <= |escapes|
    ensures k < |escapes| ==> escapes[k].id == id
    ensures forall j :: i <= j < k ==> escapes[j].id != id
    decreases |escapes| - i
  {
    if i == |escapes| || escapes[i].id == id then i else Position(escapes, id, i + 1)
  }

  /** A linear scan. */
  function Scan(escapes: seq<Escape>, id: nat): Option<Escape> {
    var k := Position(escapes, id, 0);
    if k < |escapes| then Some(escapes[k]) else None
  }

  predicate DistinctIds(escapes: seq<Escape>) {
    forall i, j :: 0 <= i < j < |escapes| ==> escapes[i].id != escapes[j].id
  }

  predicate ValidIds(escapes: seq<Escape>) {
    forall i :: 0 <= i < |escapes| ==> IndexedId(escapes[i].id)
  }

  predicate DistinctHandles(escapes: seq<Escape>) {
    forall i, j :: 0 <= i < j < |escapes| ==> escapes[i].handle != escapes[j].handle
  }

  /** The one entry a scan finds is the one the index keeps: under 255, with none of its id behind it. */
  predicate LastIndexed(escapes: seq<Escape>, id: nat) {
    var k := Position(escapes, id, 0);
    k < 255 && forall j :: k < j < |escapes| && j < 255 ==> escapes[j].id != id
  }

  /** In every table that can come about, with duplicate ids or not, the index finds what a scan finds exactly when
      the scan finds nothing, or the id is in range and its first entry lies before position 255 with no other entry
      of that id between them. */
  lemma {:induction false} IndexIsScanIff(escapes: seq<Escape>, id: nat)
    requires DistinctHandles(escapes)
    ensures Indexed(escapes, id) == Scan(escapes, id)
            <==> (Scan(escapes, id) == None || (IndexedId(id) && LastIndexed(escapes, id)))
  {
    var k, n := Position(escapes, id, 0), Encoded(escapes, |escapes|, id);
    if k < |escapes| && IndexedId(id) {
      if LastIndexed(escapes, id) {
        assert k == n - 1;
      } else if n > 0 {
        assert k <= n - 1;
        assert k != n - 1;
      }
    }
  }

  /** Duplicates do come about, since an id out of range is never found when it is added again. */
  lemma {:induction false} DuplicatesComeAbout(t: Tables, id: nat, callback: nat)
    requires id > 19
    ensures var once := AddEscape(t, id, callback, 0, 0).0;
            var twice := AddEscape(once, id, callback, 0, 0).0;
            |twice.escapes| == |t.escapes| + 2 && !DistinctIds(twice.escapes)
  {
    var once := AddEscape(t, id, callback, 0, 0).0;
    var twice := AddEscape(once, id, callback, 0, 0).0;
    var n := |t.escapes|;
    assert twice.escapes[n].id == id && twice.escapes[n + 1].id == id;
  }

  function IdSet(escapes: seq<Escape>): set<nat> {
    set i | 0 <= i < |escapes| :: escapes[i].id
  }

  lemma {:induction false} IdSetSize(escapes: seq<Escape>)
    requires DistinctIds(escapes)
    ensures |IdSet(escapes)| == |escapes|
    decreases |escapes|
  {
    if escapes != [] {
      var n := |escapes| - 1;
      IdSetSize(escapes[..n]);
      assert IdSet(escapes) == IdSet(escapes[..n]) + {escapes[n].id};
      assert escapes[n].id !in IdSet(escapes[..n]);
    }
  }

  function Upto(n: nat): (s: set<nat>)
    ensures |s| == n && forall x :: x in s <==> 1 <= x <= n
  {
    if n == 0 then {} else Upto(n - 1) + {n}
  }

  lemma {:induction false} SubsetSize(a: set<nat>, b: set<nat>)
    requires a <= b
    ensures |a| <= |b|
  {
    assert b == a + (b - a);
  }

  /** With ids in range and no duplicates the list is short, and the index is exactly a scan. */
  lemma {:induction false} TidyIndexIsScan(escapes: seq<Escape>, id: nat)
    requires DistinctIds(escapes) && ValidIds(escapes)
    ensures |escapes| <= 19 && Indexed(escapes, id) == Scan(escapes, id)
  {
    IdSetSize(escapes);
    SubsetSize(IdSet(escapes), Upto(19));
    var k, n := Position(escapes, id, 0), Encoded(escapes, |escapes|, id);
    if k < |escapes| && n > 0 {
      assert k == n - 1;
    }
  }

  /** An id past the last known one can be added, and is never found. */
  lemma {:induction false} UnknownIdIsLost(t: Tables, id: nat, callback: nat)
    requires id > 19
    ensures AddEscape(t, id, callback, 0, 0).1 == Some(t.next)
    ensures Indexed(AddEscape(t, id, callback, 0, 0).0.escapes, id) == None
    ensures Scan(AddEscape(t, id, callback, 0, 0).0.escapes, id).Some?
  {
    var after := AddEscape(t, id, callback, 0, 0).0;
    assert after.escapes[|after.escapes| - 1].id == id;
  }

  // Invariants of every reachable table.

  predicate HookHandles(t: Tables) {
    && (forall i :: 0 <= i < |t.hooks| && t.hooks[i].used ==> 0 < t.hooks[i].handle < t.next)
    && (forall i, j :: 0 <= i < j < |t.hooks| && t.hooks[i].used && t.hooks[j].used ==>
        t.hooks[i].handle != t.hooks[j].handle)
  }

  predicate EscapeHandles(t: Tables) {
    && (forall i :: 0 <= i < |t.escapes| ==> 0 < t.escapes[i].handle < t.next)
    && (forall i, j :: 0 <= i < j < |t.escapes| ==> t.escapes[i].handle != t.escapes[j].handle)
    && (forall i, j :: 0 <= i < |t.hooks| && 0 <= j < |t.escapes| && t.hooks[i].used ==>
        t.hooks[i].handle != t.escapes[j].handle)
  }

  /** Every handle in use is unique over both tables and older than the next one; free slots are blank. */
  predicate Healthy(t: Tables) {
    && |t.hooks| == 64 && t.next > 0 && HookHandles(t) && EscapeHandles(t)
    && (forall i :: 0 <= i < |t.hooks| ==>
        if t.hooks[i].used then SupportedKind(t.hooks[i].kind) else t.hooks[i] == FREE)
  }

  predicate Tidy(t: Tables) {
    ValidIds(t.escapes) && DistinctIds(t.escapes)
  }

  datatype Op =
    | HookAdd(kind: nat, callback: nat, begin: u64, end: u64)
    | EscapeAdd(id: nat, callback: nat, begin: u64, end: u64)
    | HookDel(handle: nat)

  function Apply(t: Tables, op: Op): Tables {
    match op
    case HookAdd(kind, callback, begin, end) => AddHook(t, kind, callback, begin, end).0
    case EscapeAdd(id, callback, begin, end) => AddEscape(t, id, callback, begin, end).0
    case HookDel(handle) => Delete(t, handle).0
  }

  lemma {:induction false} AddHookHealthy(t: Tables, kind: nat, callback: nat, begin: u64, end: u64)
    requires Healthy(t)
    ensures Healthy(AddHook(t, kind, callback, begin, end).0)
  {
  }

  lemma {:induction false} AddEscapeHealthy(t: Tables, id: nat, callback: nat, begin: u64, end: u64)
    requires Healthy(t)
    ensures Healthy(AddEscape(t, id, callback, begin, end).0)
    ensures Tidy(t) && IndexedId(id) ==> Tidy(AddEscape(t, id, callback, begin, end).0)
  {
    hide HookHandles;
    if Tidy(t) && IndexedId(id) {
      TidyIndexIsScan(t.escapes, id);
    }
    UnfoldHookHandles(t, AddEscape(t, id, callback, begin, end).0);
  }

  lemma {:induction false} UnfoldHookHandles(t: Tables, after: Tables)
    requires HookHandles(t) && after.hooks == t.hooks && after.next >= t.next
    ensures HookHandles(after)
    ensures forall i :: 0 <= i < |t.hooks| && t.hooks[i].used ==> t.hooks[i].handle < t.next
  {
  }

  lemma {:induction false} FreeSlot(t: Tables, k: nat)
    requires Healthy(t) && k < |t.hooks|
    ensures Healthy(t.(hooks := t.hooks[k := FREE]))
  {
  }

  lemma {:induction false} CutHandles(t: Tables, e: nat)
    requires EscapeHandles(t) && e < |t.escapes|
    ensures EscapeHandles(t.(escapes := Cut(t.escapes, e)))
  {
    hide Cut;
    var rest := Cut(t.escapes, e);
    forall i, j | 0 <= i < j < |rest| ensures rest[i].handle != rest[j].handle {
      assert (if i < e then i else i + 1) < (if j < e then j else j + 1);
    }
    forall i, j | 0 <= i < |t.hooks| && 0 <= j < |rest| && t.hooks[i].used ensures t.hooks[i].handle != rest[j].handle {
      assert rest[j] == t.escapes[if j < e then j else j + 1];
    }
  }

  lemma {:induction false} CutTidy(escapes: seq<Escape>, e: nat)
    requires e < |escapes| && ValidIds(escapes) && DistinctIds(escapes)
    ensures ValidIds(Cut(escapes, e)) && DistinctIds(Cut(escapes, e))
  {
    hide Cut;
    var rest := Cut(escapes, e);
    forall i, j | 0 <= i < j < |rest| ensures rest[i].id != rest[j].id {
      assert (if i < e then i else i + 1) < (if j < e then j else j + 1);
    }
  }

  lemma {:induction false} DeleteHealthy(t: Tables, handle: nat)
    requires Healthy(t)
    ensures Healthy(Delete(t, handle).0)
    ensures Tidy(t) ==> Tidy(Delete(t, handle).0)
  {
    hide EscapeHandles, Cut, ValidIds, DistinctIds, FirstFree;
    var h, e := HookAt(t.hooks, handle, 0), EscapeAt(t.escapes, handle, 0);
    if h < |t.hooks| {
      FreeSlot(t, h);
    } else if e < |t.escapes| {
      CutHandles(t, e);
      if Tidy(t) {
        CutTidy(t.escapes, e);
      }
      UnfoldHookHandles(t, t.(escapes := Cut(t.escapes, e)));
    }
  }

  /** Whatever the calls, in whatever order, the tables stay healthy; with ids in range also tidy, so that the
      index always answers like a scan. */
  lemma {:induction false} ReachableHealthy(t: Tables, ops: seq<Op>)
    requires Healthy(t)
    ensures Healthy(ApplyAll(t, ops))
    ensures Tidy(t) && (forall i :: 0 <= i < |ops| && ops[i].EscapeAdd? ==> IndexedId(ops[i].id)) ==>
              Tidy(ApplyAll(t, ops))
              && forall id :: Indexed(ApplyAll(t, ops).escapes, id) == Scan(ApplyAll(t, ops).escapes, id)
    decreases |ops|
  {
    hide Healthy, Indexed, Scan, AddHook, AddEscape, Delete, ValidIds, DistinctIds;
    if ops != [] {
      match ops[0] {
        case HookAdd(kind, callback, begin, end) =>
          AddHookHealthy(t, kind, callback, begin, end);
          HooksOnly(t, kind, callback, begin, end);
        case EscapeAdd(id, callback, begin, end) => AddEscapeHealthy(t, id, callback, begin, end);
        case HookDel(handle) => DeleteHealthy(t, handle);
      }
      assert forall i :: 0 <= i < |ops[1..]| ==> ops[1..][i] == ops[i + 1];
      ReachableHealthy(Apply(t, ops[0]), ops[1..]);
    } else if Tidy(t) {
      forall id: nat ensures Indexed(t.escapes, id) == Scan(t.escapes, id) {
        TidyIndexIsScan(t.escapes, id);
      }
    }
  }

  lemma {:induction false} HooksOnly(t: Tables, kind: nat, callback: nat, begin: u64, end: u64)
    ensures AddHook(t, kind, callback, begin, end).0.escapes == t.escapes
  {
  }

  function ApplyAll(t: Tables, ops: seq<Op>): Tables
    decreases |ops|
  {
    if ops == [] then t else ApplyAll(Apply(t, ops[0]), ops[1..])
  }

  lemma {:induction false} FoundAt(hooks: seq<Hook>, k: nat, handle: nat)
    requires k < |hooks| && hooks[k].used && hooks[k].handle == handle
    requires forall i :: 0 <= i < |hooks| && i != k && hooks[i].used ==> hooks[i].handle != handle
    ensures HookAt(hooks, handle, 0) == k
  {
    var i := HookAt(hooks, handle, 0);
    assert i <= k;
    assert i == k;
  }

  lemma {:induction false} NoHook(hooks: seq<Hook>, handle: nat)
    requires forall i :: 0 <= i < |hooks| && hooks[i].used ==> hooks[i].handle != handle
    ensures HookAt(hooks, handle, 0) == |hooks|
  {
    if HookAt(hooks, handle, 0) < |hooks| {
      assert false;
    }
  }

  lemma {:induction false} EscapeFoundLast(escapes: seq<Escape>, last: Escape)
    requires forall i :: 0 <= i < |escapes| ==> escapes[i].handle != last.handle
    ensures EscapeAt(escapes + [last], last.handle, 0) == |escapes|
    ensures Cut(escapes + [last], |escapes|) == escapes
  {
    assert (escapes + [last])[|escapes|] == last;
    if EscapeAt(escapes + [last], last.handle, 0) < |escapes| {
      assert false;
    }
  }

  lemma {:induction false} OldHandles(t: Tables)
    requires Healthy(t)
    ensures |t.hooks| == 64
    ensures forall i :: 0 <= i < |t.hooks| && t.hooks[i].used ==> t.hooks[i].handle != t.next
    ensures forall i :: 0 <= i < |t.escapes| ==> t.escapes[i].handle != t.next
    ensures forall i :: 0 <= i < |t.hooks| && !t.hooks[i].used ==> t.hooks[i] == FREE
  {
  }

  /** Deleting what was just added restores both tables. */
  lemma {:induction false} DeleteUndoesAdd(t: Tables, kind: nat, id: nat, callback: nat, begin: u64, end: u64)
    requires Healthy(t)
    ensures var (after, handle) := AddHook(t, kind, callback, begin, end);
            handle.Some? ==> Delete(after, handle.value) == (t.(next := t.next + 1), true)
    ensures var (after, handle) := AddEscape(t, id, callback, begin, end);
            handle.Some? ==> Delete(after, handle.value) == (t.(next := t.next + 1), true)
  {
    hide Healthy, HookAt, EscapeAt, FirstFree, Indexed, Cut;
    OldHandles(t);
    var (after, handle) := AddHook(t, kind, callback, begin, end);
    if handle.Some? {
      var k := FirstFree(t.hooks, 0);
      FoundAt(after.hooks, k, t.next);
      assert after.hooks[k := FREE] == t.hooks;
    }
    var (after', handle') := AddEscape(t, id, callback, begin, end);
    if handle'.Some? {
      NoHook(t.hooks, t.next);
      EscapeFoundLast(t.escapes, Escape(t.next, id, callback, begin, end));
    }
  }

  // Counting.

  lemma {:induction false} CountAt(hooks: seq<Hook>, k: nat, h: Hook, kind: nat)
    requires k < |hooks|
    ensures CountKind(hooks[k := h], kind) + BoolBit(OfKind(hooks[k], kind))
            == CountKind(hooks, kind) + BoolBit(OfKind(h, kind))
    decreases k
  {
    if k == 0 {
      assert hooks[0 := h][1..] == hooks[1..];
    } else {
      assert hooks[k := h][1..] == hooks[1..][k - 1 := h];
      CountAt(hooks[1..], k - 1, h, kind);
    }
  }

  lemma {:induction false} CountBlank(hooks: seq<Hook>, kind: nat)
    requires forall i :: 0 <= i < |hooks| ==> hooks[i] == FREE
    ensures CountKind(hooks, kind) == 0
    decreases |hooks|
  {
    if hooks != [] { CountBlank(hooks[1..], kind); }
  }

  /** Past the last hook of a kind there is nothing left to count. */
  lemma {:induction false} CountRest(hooks: seq<Hook>, i: nat, kind: nat)
    requires i < |hooks|
    ensures CountKind(hooks[i..], kind) == BoolBit(OfKind(hooks[i], kind)) + CountKind(hooks[i + 1..], kind)
  {
    assert hooks[i..][1..] == hooks[i + 1..];
  }

  // The tables as the engine keeps them.

  class Engine {
    const hooks: array<Hook>
    const counts: array<nat>
    const index: array<nat>
    var escapes: seq<Escape>
    var next: nat

    function View(): Tables
      reads this, hooks
    {
      Tables(hooks[..], escapes, next)
    }

    ghost predicate CountsAgree()
      reads hooks, counts
    {
      counts.Length == 12 && forall kind :: 0 <= kind < counts.Length ==> counts[kind] == CountKind(hooks[..], kind)
    }

    ghost predicate IndexAgrees()
      reads this, index
    {
      index.Length == 20 && forall id :: 1 <= id < index.Length ==> index[id] == Encoded(escapes, |escapes|, id)
    }

    /** Each counter is the number of used slots of its kind, and the index mirrors the escape list. */
    ghost predicate Valid()
      reads this, hooks, counts, index
    {
      counts != index && CountsAgree() && IndexAgrees() && Healthy(View())
    }

    constructor ()
      ensures Valid() && fresh(hooks) && fresh(counts) && fresh(index)
      ensures View() == Tables(seq(64, _ => FREE), [], 1)
    {
      hooks := new Hook[64](_ => FREE);
      counts := new nat[12](_ => 0);
      index := new nat[20](_ => 0);
      escapes := [];
      next := 1;
      new;
      forall kind: nat ensures CountKind(hooks[..], kind) == 0 {
        CountBlank(hooks[..], kind);
      }
    }

    method AddHookEntry(kind: nat, callback: nat, begin: u64, end: u64) returns (handle: Option<nat>)
      requires Valid()
      modifies this`next, hooks, counts
      ensures Valid()
      ensures (View(), handle) == AddHook(old(View()), kind, callback, begin, end)
    {
      hide Healthy, Encoded, CountKind;
      AddHookHealthy(View(), kind, callback, begin, end);
      HealthySize(View());
      if !SupportedKind(kind) {
        return None;
      }
      var k := 0;
      while k < hooks.Length && hooks[k].used
        invariant 0 <= k <= hooks.Length
        invariant FirstFree(hooks[..], k) == FirstFree(hooks[..], 0)
      {
        k := k + 1;
      }
      if k == hooks.Length {
        return None;
      }
      ghost var before := hooks[..];
      hooks[k] := Hook(true, next, kind, callback, begin, end);
      handle := Some(next);
      next := next + 1;
      counts[kind] := counts[kind] + 1;
      CountsChanged(before, hooks[..], k, hooks[k]);
    }

    method Remove(handle: nat) returns (found: bool)
      requires Valid()
      modifies this`escapes, hooks, counts, index
      ensures Valid()
      ensures (View(), found) == Delete(old(View()), handle)
    {
      hide Healthy, Encoded, CountKind;
      DeleteHealthy(View(), handle);
      HealthySize(View());
      var k := 0;
      while k < hooks.Length
        invariant 0 <= k <= hooks.Length
        invariant HookAt(hooks[..], handle, k) == HookAt(hooks[..], handle, 0)
      {
        if hooks[k].used && hooks[k].handle == handle {
          ghost var before := hooks[..];
          var kind := hooks[k].kind;
          UsedKind(View(), k);
          CountsChanged(before, before[k := FREE], k, FREE);
          counts[kind] := if counts[kind] > 1 then counts[kind] - 1 else 0;
          hooks[k] := FREE;
          assert hooks[..] == before[k := FREE];
          return true;
        }
        k := k + 1;
      }
      var i := 0;
      while i < |escapes|
        invariant 0 <= i <= |escapes|
        invariant EscapeAt(escapes, handle, i) == EscapeAt(escapes, handle, 0)
        invariant View() == old(View()) && Valid()
      {
        if escapes[i].handle == handle {
          escapes := escapes[..i] + escapes[i + 1..];
          RebuildIndex();
          return true;
        }
        i := i + 1;
      }
      return false;
    }

    method AddEscapeEntry(id: nat, callback: nat, begin: u64, end: u64) returns (handle: Option<nat>)
      requires Valid()
      modifies this, index
      ensures Valid()
      ensures (View(), handle) == AddEscape(old(View()), id, callback, begin, end)
    {
      hide Healthy, Encoded, CountKind;
      AddEscapeHealthy(View(), id, callback, begin, end);
      if id == 0 {
        return None;
      }
      var existing := Lookup(id);
      if existing.Some? {
        return None;
      }
      escapes := escapes + [Escape(next, id, callback, begin, end)];
      handle := Some(next);
      next := next + 1;
      RebuildIndex();
    }

    method RebuildIndex()
      requires index.Length == 20
      modifies index
      ensures IndexAgrees()
    {
      forall id | 0 <= id < index.Length {
        index[id] := 0;
      }
      var i := 0;
      while i < |escapes|
        invariant 0 <= i <= |escapes|
        invariant forall id :: 1 <= id < index.Length ==> index[id] == Encoded(escapes, i, id)
      {
        var id := escapes[i].id;
        if IndexedId(id) && i < 0xFF {
          index[id] := i + 1;
        }
        i := i + 1;
      }
    }

    /** cpueaxh_lookup_escape_entry. */
    method Lookup(id: nat) returns (found: Option<Escape>)
      requires Valid()
      ensures found == Indexed(escapes, id)
    {
      hide Healthy, CountKind;
      if !IndexedId(id) {
        return None;
      }
      var encoded := index[id];
      if encoded == 0 {
        return None;
      }
      var i := encoded - 1;
      if i >= |escapes| {
        return None;
      }
      found := if escapes[i].id == id then Some(escapes[i]) else None;
    }
  }

  lemma {:induction false} HealthySize(t: Tables)
    requires Healthy(t)
    ensures |t.hooks| == 64
  {
    hide HookHandles, EscapeHandles;
  }

  lemma {:induction false} UsedKind(t: Tables, k: nat)
    requires Healthy(t) && k < |t.hooks| && t.hooks[k].used
    ensures 1 <= t.hooks[k].kind <= 11
  {
    hide HookHandles, EscapeHandles;
  }

  lemma {:induction false} CountsChanged(before: seq<Hook>, after: seq<Hook>, k: nat, h: Hook)
    requires k < |before| && after == before[k := h]
    ensures forall kind: nat ::
              CountKind(after, kind) + BoolBit(OfKind(before[k], kind))
                  == CountKind(before, kind) + BoolBit(OfKind(h, kind))
  {
    hide CountKind;
    forall kind: nat
      ensures CountKind(after, kind) + BoolBit(OfKind(before[k], kind))
              == CountKind(before, kind) + BoolBit(OfKind(h, kind))
    {
      CountAt(before, k, h, kind);
    }
  }
}
