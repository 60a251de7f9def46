/** The region list of the memory manager, its page cache, and the contract of the code version. */
module Regions {
  import opened Bits
  import opened MemoryManagement
  import opened Transparency

  datatype Rights = Rights(read: bool, write: bool, exec: bool, user: bool)

  /** size bytes of guest memory from base on, kept in host memory from data on. External regions belong to the
      host program. */
  datatype Region = Region(base: u64, size: nat, data: nat, rights: Rights, external: bool)

  /** heap is above every host byte in use, so that an allocation there disturbs nobody. */
  datatype Table = Table(regions: seq<Region>, host: map<nat, byte>, heap: nat, passRead: bool, passWrite: bool,
                         passExec: bool, version: u64)

  /** One past the last address, in 64 bits: zero for a region that reaches the top. */
  function End(r: Region): u64 {
    Wrap(r.base + r.size)
  }

  predicate Holds(r: Region, address: u64) {
    r.base <= address < End(r)
  }

  function Scan(regions: seq<Region>, address: u64): (found: Option<Region>)
    ensures found.Some? ==> Holds(found.value, address) && found.value in regions
    decreases |regions|
  {
    if regions == [] then None else if Holds(regions[0], address) then Some(regions[0]) else Scan(regions[1..], address)
  }

  /** In order of their bases, and apart as 64-bit ends show it: a region that reaches the top is no obstacle. */
  predicate Sorted(regions: seq<Region>) {
    forall i, j :: 0 <= i < j < |regions| ==> regions[i].base <= regions[j].base && End(regions[i]) <= regions[j].base
  }

  predicate Aligned(r: Region) {
    r.size > 0 && r.base % 0x1000 == 0 && r.size % 0x1000 == 0 && r.base + r.size <= WORD
  }

  /** A region with its bytes below the heap. */
  predicate Proper(r: Region, heap: nat) {
    Aligned(r) && r.data + r.size <= heap
  }

  /** The region ends below the top of the address space. */
  predicate BelowTop(r: Region) {
    r.base + r.size < WORD
  }

  predicate AllProper(regions: seq<Region>, heap: nat) {
    forall i :: 0 <= i < |regions| ==> Proper(regions[i], heap)
  }

  predicate WellFormed(t: Table) {
    Sorted(t.regions) && AllProper(t.regions, t.heap)
  }

  // Finding a region.

  /** mm_find_region_index. Binary search finds the region that holds the address; one that reaches the top of the
      address space holds nothing in 64-bit arithmetic, and is never found. */
  method FindRegionIndex(regions: seq<Region>, address: u64) returns (index: Option<nat>)
    requires Sorted(regions) && forall i :: 0 <= i < |regions| ==> Aligned(regions[i])
    ensures index.Some? ==> index.value < |regions| && Holds(regions[index.value], address)
    ensures index.None? ==> forall i :: 0 <= i < |regions| ==> !Holds(regions[i], address)
  {
    var left, right := 0, |regions|;
    while left < right
      invariant 0 <= left <= right <= |regions|
      invariant forall i :: 0 <= i < left ==> !Holds(regions[i], address)
      invariant forall i :: right <= i < |regions| ==> !Holds(regions[i], address)
    {
      var mid := left + (right - left) / 2;
      if address < regions[mid].base {
        right := mid;
      } else if address >= End(regions[mid]) {
        forall i | left <= i < mid ensures !Holds(regions[i], address) {
          EndsBefore(regions, i, mid);
        }
        left := mid + 1;
      } else {
        return Some(mid);
      }
    }
    return None;
  }

  lemma {:induction false} EndsBefore(regions: seq<Region>, i: nat, j: nat)
    requires Sorted(regions) && (forall k :: 0 <= k < |regions| ==> Aligned(regions[k])) && i < j < |regions|
    ensures End(regions[i]) <= regions[j].base
  {
  }

  lemma {:induction false} ScanIndex(regions: seq<Region>, address: u64, i: nat)
    requires Sorted(regions) && (forall k :: 0 <= k < |regions| ==> Aligned(regions[k]))
    requires i < |regions| && Holds(regions[i], address)
    ensures Scan(regions, address) == Some(regions[i])
    decreases i
  {
    if i > 0 {
      EndsBefore(regions, 0, i);
      var rest := regions[1..];
      assert forall k :: 0 <= k < |rest| ==> rest[k] == regions[k + 1];
      ScanIndex(rest, address, i - 1);
    }
  }

  lemma {:induction false} ScanNone(regions: seq<Region>, address: u64)
    requires forall i :: 0 <= i < |regions| ==> !Holds(regions[i], address)
    ensures Scan(regions, address) == None
  {
  }

  lemma {:induction false} ScanConcat(x: seq<Region>, y: seq<Region>, address: u64)
    ensures Scan(x + y, address) == if Scan(x, address).Some? then Scan(x, address) else Scan(y, address)
    decreases |x|
  {
    if x == [] {
      assert x + y == y;
    } else {
      assert (x + y)[1..] == x[1..] + y;
      ScanConcat(x[1..], y, address);
    }
  }

  // What the guest sees.

  datatype Seen = Hidden | Seen(rights: Rights, value: byte)

  function Cell(host: map<nat, byte>, p: nat): byte {
    if p in host then host[p] else 0
  }

  function Sight(host: map<nat, byte>, r: Region, address: u64): Seen
    requires Holds(r, address)
  {
    Seen(r.rights, Cell(host, r.data + (address - r.base)))
  }

  function SeenIn(host: map<nat, byte>, regions: seq<Region>, address: u64): Seen {
    match Scan(regions, address)
    case Some(r) => Sight(host, r, address)
    case None => Hidden
  }

  // Changing a range.

  datatype Change = Unmap | Protect(read: bool, write: bool, exec: bool) | SetUser(user: bool)

  function Changed(rights: Rights, change: Change): Option<Rights> {
    match change
    case Unmap => None
    case Protect(read, write, exec) => Some(Rights(read, write, exec, rights.user))
    case SetUser(user) => Some(rights.(user := user))
  }

  function Edited(seen: Seen, change: Change): Seen {
    match seen
    case Hidden => Hidden
    case Seen(rights, value) =>
      match Changed(rights, change)
      case Some(new_) => Seen(new_, value)
      case None => Hidden
  }

  /** The host bytes after n bytes are copied. */
  function Copy(host: map<nat, byte>, from: nat, to: nat, n: nat): map<nat, byte>
    decreases n
  {
    if n == 0 then host else Copy(host, from, to, n - 1)[to + (n - 1) := Cell(host, from + (n - 1))]
  }

  lemma {:induction false} CopyCells(host: map<nat, byte>, from: nat, to: nat, n: nat, p: nat)
    ensures Cell(Copy(host, from, to, n), p) == if to <= p < to + n then Cell(host, from + (p - to)) else Cell(host, p)
    decreases n
  {
    if n > 0 { CopyCells(host, from, to, n - 1, p); }
  }

  /** The host bytes and the heap, while pieces of regions are built. */
  datatype Store = Store(host: map<nat, byte>, heap: nat)

  /** A stretch of a region as a region of its own: external ones share the bytes, others get a copy. */
  function Segment(s: Store, r: Region, base: u64, size: nat, rights: Rights): (Store, Region)
    requires r.base <= base
  {
    var data := r.data + (base - r.base);
    if r.external then (s, Region(base, size, data, rights, true))
    else (Store(Copy(s.host, data, s.heap, size), s.heap + size), Region(base, size, s.heap, rights, false))
  }

  predicate Grown(s: Store, after: Store) {
    s.heap <= after.heap && forall p: nat :: p < s.heap ==> Cell(after.host, p) == Cell(s.host, p)
  }

  lemma {:induction false} SegmentExact(s: Store, r: Region, base: u64, size: nat, rights: Rights)
    requires BelowTop(r)
    requires Proper(r, s.heap) && r.base <= base && size > 0 && base + size <= r.base + r.size
    requires base % 0x1000 == 0 && size % 0x1000 == 0
    ensures var (after, piece) := Segment(s, r, base, size, rights);
            && Grown(s, after) && Proper(piece, after.heap) && piece.base == base && piece.size == size
            && (forall a: u64 :: base <= a < base + size ==>
                  Holds(piece, a) && Holds(r, a)
                  && Sight(after.host, piece, a) == Seen(rights, Sight(s.host, r, a).value))
  {
    hide Copy, Cell;
    var (after, piece) := Segment(s, r, base, size, rights);
    var data := r.data + (base - r.base);
    if !r.external {
      forall p: nat | p < s.heap ensures Cell(after.host, p) == Cell(s.host, p) {
        CopyCells(s.host, data, s.heap, size, p);
      }
    }
    forall a: u64 | base <= a < base + size
      ensures Holds(piece, a) && Holds(r, a) && Sight(after.host, piece, a) == Seen(rights, Sight(s.host, r, a).value)
    {
      assert Holds(piece, a) && Holds(r, a);
      if !r.external {
        CopyCells(s.host, data, s.heap, size, s.heap + (a - base));
      }
    }
  }

  lemma {:induction false} GrownTwice(a: Store, b: Store, c: Store)
    requires Grown(a, b) && Grown(b, c)
    ensures Grown(a, c)
  {
  }

  lemma {:induction false} SightGrown(s: Store, after: Store, r: Region, a: u64)
    requires Proper(r, s.heap) && Grown(s, after) && Holds(r, a)
    ensures Proper(r, after.heap) && Sight(after.host, r, a) == Sight(s.host, r, a)
  {
    hide Cell;
  }

  /** What is left of a region when the part from current to chunkEnd is changed: the part before, the changed part
      unless it is unmapped, and the part after. */
  function Pieces(s: Store, r: Region, current: u64, chunkEnd: u64, change: Change): (Store, seq<Region>)
    requires r.base <= current < chunkEnd <= End(r)
  {
    var (s1, left) := if r.base < current then One(Segment(s, r, r.base, current - r.base, r.rights)) else (s, []);
    var (s2, middle) :=
      match Changed(r.rights, change)
      case Some(rights) => One(Segment(s1, r, current, chunkEnd - current, rights))
      case None => (s1, []);
    var (s3, right) := if chunkEnd < End(r) then One(Segment(s2, r, chunkEnd, End(r) - chunkEnd, r.rights))
        else (s2, []);
    (s3, left + middle + right)
  }

  function One(built: (Store, Region)): (Store, seq<Region>) {
    (built.0, [built.1])
  }

  /** A list of at most one piece that shows some addresses of a region with given rights. */
  predicate Shows(s: Store, list: seq<Region>, before: Store, r: Region, lo: int, hi: int, rights: Rights) {
    && |list| <= 1 && AllProper(list, s.heap)
       && (list == [] || (list[0].base == lo && list[0].base + list[0].size == hi))
    && (list != [] ==>
          forall a: u64 :: lo <= a < hi ==>
            Holds(list[0], a) && Holds(r, a)
            && Sight(s.host, list[0], a) == Seen(rights, Sight(before.host, r, a).value))
  }

  lemma {:induction false} ShowsSegment(s: Store, before: Store, r: Region, base: u64, size: nat, rights: Rights)
    requires BelowTop(r)
    requires Proper(r, before.heap) && Grown(before, s) && r.base <= base && size > 0 && base + size <= r.base + r.size
    requires base % 0x1000 == 0 && size % 0x1000 == 0
    ensures var (after, list) := One(Segment(s, r, base, size, rights));
            Grown(s, after) && Shows(after, list, before, r, base, base + size, rights) && |list| == 1
  {
    hide Segment, Sight, Grown, Holds, Proper;
    ProperGrown(before, s, r);
    SegmentExact(s, r, base, size, rights);
    forall a: u64 | Holds(r, a) ensures Sight(s.host, r, a) == Sight(before.host, r, a) {
      SightGrown(before, s, r, a);
    }
  }

  lemma {:induction false} ProperGrown(s: Store, after: Store, r: Region)
    requires Proper(r, s.heap) && Grown(s, after)
    ensures Proper(r, after.heap)
  {
  }

  lemma {:induction false} ShowsLater(s: Store, after: Store, list: seq<Region>, before: Store, r: Region, lo: int,
      hi: int, rights: Rights)
    requires Shows(s, list, before, r, lo, hi, rights) && Grown(s, after)
    ensures Shows(after, list, before, r, lo, hi, rights)
  {
    hide Sight, Grown, Holds, Proper;
    if list != [] {
      ProperGrown(s, after, list[0]);
      forall a: u64 | Holds(list[0], a) ensures Sight(after.host, list[0], a) == Sight(s.host, list[0], a) {
        SightGrown(s, after, list[0], a);
      }
    }
  }

  lemma {:induction false} EmptyShows(s: Store, before: Store, r: Region, lo: int, hi: int, rights: Rights)
    ensures Shows(s, [], before, r, lo, hi, rights) && Grown(s, s)
  {
  }

  lemma {:induction false} ShownSight(s: Store, list: seq<Region>, before: Store, r: Region, lo: u64, hi: u64,
      rights: Rights, a: u64)
    requires Shows(s, list, before, r, lo, hi, rights) && Holds(r, a)
    ensures SeenIn(s.host, list, a)
            == if list != [] && lo <= a < hi then Seen(rights, Sight(before.host, r, a).value) else Hidden
  {
    hide Sight;
    if list != [] {
      assert list == [list[0]];
    }
  }

  lemma {:induction false} SeenConcat(host: map<nat, byte>, x: seq<Region>, y: seq<Region>, a: u64)
    ensures SeenIn(host, x + y, a) == if SeenIn(host, x, a) == Hidden then SeenIn(host, y, a) else SeenIn(host, x, a)
  {
    hide Sight, Scan;
    ScanConcat(x, y, a);
    SightSeen(host, x, a);
  }

  lemma {:induction false} SightSeen(host: map<nat, byte>, x: seq<Region>, a: u64)
    ensures SeenIn(host, x, a) == Hidden <==> Scan(x, a) == None
  {
  }

  /** Every piece lies within the region it comes from. */
  predicate Inside(list: seq<Region>, r: Region) {
    forall i :: 0 <= i < |list| ==> r.base <= list[i].base && list[i].base + list[i].size <= r.base + r.size
  }

  lemma {:induction false} InsideHidden(host: map<nat, byte>, list: seq<Region>, r: Region, a: u64)
    requires Inside(list, r) && Aligned(r) && BelowTop(r) && !Holds(r, a)
    ensures SeenIn(host, list, a) == Hidden
  {
    hide Sight;
    if Scan(list, a).Some? {
      assert false;
    }
  }

  lemma {:induction false} PiecesShape(s: Store, left: seq<Region>, middle: seq<Region>, right: seq<Region>, r: Region,
                                       current: u64, chunkEnd: u64, before: Store, rights: Rights)
    requires BelowTop(r)
    requires Proper(r, before.heap) && r.base <= current < chunkEnd <= End(r)
    requires Shows(s, left, before, r, r.base, current, r.rights)
             && Shows(s, middle, before, r, current, chunkEnd, rights)
             && Shows(s, right, before, r, chunkEnd, End(r), r.rights)
    ensures var list := left + middle + right;
            Sorted(list) && AllProper(list, s.heap) && Inside(list, r)
  {
    hide *;
    EndOf(r, before.heap);
    ShowsSpan(s, left, before, r, r.base, current, r.rights);
    ShowsSpan(s, middle, before, r, current, chunkEnd, rights);
    ShowsSpan(s, right, before, r, chunkEnd, End(r), r.rights);
    SpansInOrder(left, middle, right, r, current, chunkEnd);
    ConcatProper(left, middle, right, s.heap);
  }

  /** At most one region, from lo up to hi. */
  predicate Span(list: seq<Region>, lo: int, hi: int) {
    |list| <= 1 && (list == [] || (list[0].base == lo && list[0].base + list[0].size == hi))
  }

  lemma {:induction false} ShowsSpan(s: Store, list: seq<Region>, before: Store, r: Region, lo: int, hi: int,
                                     rights: Rights)
    requires Shows(s, list, before, r, lo, hi, rights)
    ensures Span(list, lo, hi) && AllProper(list, s.heap)
  {
    hide Sight, Holds, AllProper;
  }

  predicate Between(list: seq<Region>, lo: int, hi: int) {
    forall i :: 0 <= i < |list| ==> lo <= list[i].base && list[i].base + list[i].size <= hi
  }

  lemma {:induction false} SpansInOrder(left: seq<Region>, middle: seq<Region>, right: seq<Region>, r: Region,
                                        current: u64, chunkEnd: u64)
    requires BelowTop(r) && r.base <= current < chunkEnd <= r.base + r.size
    requires Span(left, r.base, current) && Span(middle, current, chunkEnd) && Span(right, chunkEnd, r.base + r.size)
    ensures Sorted(left + middle + right) && Inside(left + middle + right, r)
  {
    hide Sorted, End;
    SpanSorted(left, r.base, current);
    SpanSorted(middle, current, chunkEnd);
    SpanSorted(right, chunkEnd, r.base + r.size);
    Joined(left, middle, r.base, current, chunkEnd);
    Joined(left + middle, right, r.base, chunkEnd, r.base + r.size);
  }

  lemma {:induction false} SpanSorted(list: seq<Region>, lo: int, hi: int)
    requires Span(list, lo, hi)
    ensures Sorted(list) && Between(list, lo, hi)
  {
  }

  lemma {:induction false} Joined(x: seq<Region>, y: seq<Region>, lo: int, middle: int, hi: int)
    requires Sorted(x) && Sorted(y) && Between(x, lo, middle) && Between(y, middle, hi) && lo <= middle <= hi < WORD
    ensures Sorted(x + y) && Between(x + y, lo, hi)
  {
    hide Wrap;
    forall i | 0 <= i < |x| ensures x[i].base <= middle && End(x[i]) <= middle {
      SmallEnd(x[i], middle);
    }
  }

  lemma {:induction false} SmallEnd(piece: Region, hi: int)
    requires piece.base + piece.size <= hi < WORD
    ensures End(piece) == piece.base + piece.size
  {
  }

  /** Splitting a region changes what is seen in the chosen part and nowhere else. */
  lemma {:induction false} PiecesExact(s: Store, r: Region, current: u64, chunkEnd: u64, change: Change)
    requires Proper(r, s.heap) && r.base <= current < chunkEnd <= End(r) && current % 0x1000 == 0
             && chunkEnd % 0x1000 == 0
    ensures var (after, list) := Pieces(s, r, current, chunkEnd, change);
            && Grown(s, after) && Sorted(list) && AllProper(list, after.heap) && Inside(list, r)
            && forall a: u64 :: Holds(r, a) ==>
                 SeenIn(after.host, list, a)
                 == if current <= a < chunkEnd then Edited(Sight(s.host, r, a), change) else Sight(s.host, r, a)
  {
    hide Segment, Sight, Grown, Shows, SeenIn, Sorted, AllProper, Inside, Changed, One;
    var rights := if Changed(r.rights, change).Some? then Changed(r.rights, change).value else r.rights;
    EndOf(r, s.heap);
    EmptyShows(s, s, r, r.base, current, r.rights);
    if r.base < current {
      ShowsSegment(s, s, r, r.base, current - r.base, r.rights);
    }
    var (s1, left) := if r.base < current then One(Segment(s, r, r.base, current - r.base, r.rights)) else (s, []);
    EmptyShows(s1, s, r, current, chunkEnd, rights);
    ShowsSegment(s1, s, r, current, chunkEnd - current, rights);
    var (s2, middle) :=
      match Changed(r.rights, change)
      case Some(given) => One(Segment(s1, r, current, chunkEnd - current, given))
      case None => (s1, []);
    GrownTwice(s, s1, s2);
    EmptyShows(s2, s, r, chunkEnd, End(r), r.rights);
    if chunkEnd < End(r) {
      ShowsSegment(s2, s, r, chunkEnd, End(r) - chunkEnd, r.rights);
    }
    var (s3, right) := if chunkEnd < End(r) then One(Segment(s2, r, chunkEnd, End(r) - chunkEnd, r.rights))
        else (s2, []);
    GrownTwice(s, s2, s3);
    GrownTwice(s1, s2, s3);
    ShowsLater(s1, s3, left, s, r, r.base, current, r.rights);
    ShowsLater(s2, s3, middle, s, r, current, chunkEnd, rights);
    PiecesShape(s3, left, middle, right, r, current, chunkEnd, s, rights);
    forall a: u64 | Holds(r, a)
      ensures SeenIn(s3.host, left + middle + right, a)
              == if current <= a < chunkEnd then Edited(Sight(s.host, r, a), change) else Sight(s.host, r, a)
    {
      SeenConcat(s3.host, left + middle, right, a);
      SeenConcat(s3.host, left, middle, a);
      ShownSight(s3, left, s, r, r.base, current, r.rights, a);
      ShownSight(s3, middle, s, r, current, chunkEnd, rights, a);
      ShownSight(s3, right, s, r, chunkEnd, End(r), r.rights, a);
      UnfoldSight(s.host, r, a);
    }
  }

  lemma {:induction false} EndOf(r: Region, heap: nat)
    requires Proper(r, heap) && r.base < End(r)
    ensures BelowTop(r) && End(r) == r.base + r.size && End(r) % 0x1000 == 0 && r.base % 0x1000 == 0
  {
  }

  lemma {:induction false} UnfoldSight(host: map<nat, byte>, r: Region, a: u64)
    requires Holds(r, a)
    ensures Sight(host, r, a).Seen? && Sight(host, r, a).rights == r.rights
  {
  }

  // One region of the list is replaced.

  function BumpVersion(version: u64): u64 {
    if Wrap(version + 1) == 0 then 1 else version + 1
  }

  function Replace(t: Table, i: nat, current: u64, chunkEnd: u64, change: Change): Table
    requires i < |t.regions| && t.regions[i].base <= current < chunkEnd <= End(t.regions[i])
  {
    var (s, list) := Pieces(Store(t.host, t.heap), t.regions[i], current, chunkEnd, change);
    t.(regions := t.regions[..i] + list + t.regions[i + 1..], host := s.host, heap := s.heap,
       version := BumpVersion(t.version))
  }

  function View(t: Table, a: u64): Seen {
    SeenIn(t.host, t.regions, a)
  }

  lemma {:induction false} SortedAround(x: seq<Region>, list: seq<Region>, y: seq<Region>, r: Region)
    requires BelowTop(r)
    requires Sorted(x + [r] + y) && Sorted(list) && Inside(list, r) && forall i :: 0 <= i < |x + [r] + y| ==>
             Aligned((x + [r] + y)[i])
    ensures Sorted(x + list + y)
  {
    var all, new_ := x + [r] + y, x + list + y;
    forall i, j | 0 <= i < j < |new_|
      ensures new_[i].base <= new_[j].base && End(new_[i]) <= new_[j].base
    {
      var k := if i < |x| then i else if i < |x| + |list| then |x| else i - |list| + 1;
      var l := if j < |x| then j else if j < |x| + |list| then |x| else j - |list| + 1;
      assert all[|x|] == r;
      assert k < l ==> all[k].base <= all[l].base && End(all[k]) <= all[l].base;
    }
  }

  lemma {:induction false} PartsKept(s: Store, after: Store, list: seq<Region>, a: u64)
    requires AllProper(list, s.heap) && Grown(s, after)
    ensures AllProper(list, after.heap) && SeenIn(after.host, list, a) == SeenIn(s.host, list, a)
  {
    hide Sight, Grown, Proper;
    forall i | 0 <= i < |list| ensures Proper(list[i], after.heap) {
      ProperGrown(s, after, list[i]);
    }
    if Scan(list, a).Some? {
      SightGrown(s, after, Scan(list, a).value, a);
    }
  }

  lemma {:induction false} SplitAt(regions: seq<Region>, i: nat)
    requires i < |regions|
    ensures regions == regions[..i] + [regions[i]] + regions[i + 1..]
  {
  }

  lemma {:induction false} SeenOne(host: map<nat, byte>, r: Region, a: u64)
    ensures SeenIn(host, [r], a) == if Holds(r, a) then Sight(host, r, a) else Hidden
  {
    hide Sight;
  }

  lemma {:induction false} OthersHide(t: Table, i: nat, a: u64)
    requires WellFormed(t) && i < |t.regions| && Holds(t.regions[i], a)
    ensures SeenIn(t.host, t.regions[..i], a) == Hidden && SeenIn(t.host, t.regions[i + 1..], a) == Hidden
  {
    hide Sight;
    var x, y := t.regions[..i], t.regions[i + 1..];
    forall k | 0 <= k < |x| ensures !Holds(x[k], a) {
      EndsBefore(t.regions, k, i);
    }
    forall k | 0 <= k < |y| ensures !Holds(y[k], a) {
      EndsBefore(t.regions, i, i + 1 + k);
    }
    ScanNone(x, a);
    ScanNone(y, a);
  }

  lemma {:induction false} UnfoldProper(r: Region, heap: nat)
    requires Proper(r, heap)
    ensures Aligned(r)
  {
  }

  lemma {:induction false} PartsProper(regions: seq<Region>, i: nat, heap: nat)
    requires i < |regions| && AllProper(regions, heap)
    ensures AllProper(regions[..i], heap) && AllProper(regions[i + 1..], heap) && Proper(regions[i], heap)
    ensures forall k :: 0 <= k < |regions| ==> Aligned(regions[k])
  {
  }

  lemma {:induction false} ConcatProper(x: seq<Region>, y: seq<Region>, z: seq<Region>, heap: nat)
    requires AllProper(x, heap) && AllProper(y, heap) && AllProper(z, heap)
    ensures AllProper(x + y + z, heap)
  {
  }

  /** Replacing a region by its pieces changes what is seen in the chosen part and nowhere else. */
  lemma {:induction false} ReplaceExact(t: Table, i: nat, current: u64, chunkEnd: u64, change: Change, a: u64)
    requires WellFormed(t) && i < |t.regions| && t.regions[i].base <= current < chunkEnd <= End(t.regions[i])
    requires current % 0x1000 == 0 && chunkEnd % 0x1000 == 0
    ensures var after := Replace(t, i, current, chunkEnd, change);
            && WellFormed(after) && after.version == BumpVersion(t.version)
            && View(after, a) == if current <= a < chunkEnd then Edited(View(t, a), change) else View(t, a)
  {
    hide Pieces, Sight, SeenIn, Grown, Sorted, AllProper, Inside, Edited, Scan, Aligned, Proper;
    var s0, r := Store(t.host, t.heap), t.regions[i];
    var x, y := t.regions[..i], t.regions[i + 1..];
    var (s, list) := Pieces(s0, r, current, chunkEnd, change);
    SplitAt(t.regions, i);
    PartsProper(t.regions, i, t.heap);
    PiecesExact(s0, r, current, chunkEnd, change);
    EndOf(r, t.heap);
    SortedAround(x, list, y, r);
    PartsKept(s0, s, x, a);
    PartsKept(s0, s, y, a);
    ConcatProper(x, list, y, s.heap);
    SeenConcat(s.host, x + list, y, a);
    SeenConcat(s.host, x, list, a);
    SeenConcat(t.host, x + [r], y, a);
    SeenConcat(t.host, x, [r], a);
    SeenOne(t.host, r, a);
    if Holds(r, a) {
      OthersHide(t, i, a);
      UnfoldSight(t.host, r, a);
    } else {
      UnfoldProper(r, t.heap);
      InsideHidden(s.host, list, r, a);
    }
  }

  // A whole range.

  function Where(regions: seq<Region>, address: u64, i: nat): (k: nat)
    requires i <= |regions|
    ensures i <= k <= |regions| && (k < |regions| ==> Holds(regions[k], address))
    ensures forall j :: i <= j < k ==> !Holds(regions[j], address)
    decreases |regions| - i
  {
    if i == |regions| || Holds(regions[i], address) then i else Where(regions, address, i + 1)
  }

  function ChunkEnd(r: Region, end: u64): u64 {
    if End(r) < end then End(r) else end
  }

  /** The loop shared by mm_unmap, mm_protect and mm_set_cpu_attrs. */
  function Edit(t: Table, current: u64, end: u64, change: Change): (Table, bool)
    decreases end - current
  {
    var i := Where(t.regions, current, 0);
    if current >= end then (t, true)
    else if i == |t.regions| then (t, false)
    else
      var chunkEnd := ChunkEnd(t.regions[i], end);
      Edit(Replace(t, i, current, chunkEnd, change), chunkEnd, end, change)
  }

  ghost predicate RangeMapped(regions: seq<Region>, current: u64, end: u64) {
    forall a: u64 :: current <= a < end ==> Scan(regions, a).Some?
  }

  lemma {:induction false} WhereScan(regions: seq<Region>, address: u64)
    ensures Scan(regions, address).Some? <==> Where(regions, address, 0) < |regions|
  {
    if Where(regions, address, 0) == |regions| {
      ScanNone(regions, address);
    } else if Scan(regions, address) == None {
      NoneScans(regions, address, Where(regions, address, 0));
    }
  }

  lemma {:induction false} NoneScans(regions: seq<Region>, address: u64, i: nat)
    requires i < |regions| && Holds(regions[i], address)
    ensures Scan(regions, address).Some?
    decreases i
  {
    if i > 0 { NoneScans(regions[1..], address, i - 1); }
  }

  lemma {:induction false} ViewScan(t: Table, a: u64)
    ensures View(t, a) != Hidden <==> Scan(t.regions, a).Some?
  {
    SightSeen(t.host, t.regions, a);
  }

  lemma {:induction false} RangeStays(t: Table, i: nat, current: u64, chunkEnd: u64, end: u64, change: Change)
    requires WellFormed(t) && i < |t.regions| && t.regions[i].base <= current < chunkEnd <= End(t.regions[i])
    requires current % 0x1000 == 0 && chunkEnd % 0x1000 == 0 && chunkEnd <= end && RangeMapped(t.regions, current, end)
    ensures RangeMapped(Replace(t, i, current, chunkEnd, change).regions, chunkEnd, end)
  {
    hide Replace, Scan, WellFormed, View;
    var after := Replace(t, i, current, chunkEnd, change);
    forall a: u64 | chunkEnd <= a < end ensures Scan(after.regions, a).Some? {
      ReplaceExact(t, i, current, chunkEnd, change, a);
      ViewScan(t, a);
      ViewScan(after, a);
    }
  }

  lemma {:induction false} ChunkAligned(t: Table, i: nat, end: u64)
    requires WellFormed(t) && i < |t.regions| && end % 0x1000 == 0
    ensures ChunkEnd(t.regions[i], end) % 0x1000 == 0
  {
  }

  /** Changing a mapped range changes what is seen inside it, byte for byte as asked, and nothing outside; and the
      code version moves, at most once a page. */
  lemma {:induction false} EditExact(t: Table, current: u64, end: u64, change: Change, a: u64)
    requires WellFormed(t) && current % 0x1000 == 0 && end % 0x1000 == 0 && RangeMapped(t.regions, current, end)
    ensures var (after, ok) := Edit(t, current, end, change);
            && ok && WellFormed(after)
            && View(after, a) == (if current <= a < end then Edited(View(t, a), change) else View(t, a))
            && (current >= end ==> after == t)
            && (current < end && t.version + (end - current) / 0x1000 < WORD ==>
                  t.version < after.version <= t.version + (end - current) / 0x1000)
    decreases end - current
  {
    hide Replace, Scan, WellFormed, View, Edited, ChunkEnd, RangeMapped, Where;
    if current < end {
      StartMapped(t.regions, current, end);
      var i := Where(t.regions, current, 0);
      var chunkEnd := ChunkEnd(t.regions[i], end);
      WhereScan(t.regions, current);
      WhereHolds(t.regions, current);
      ChunkBounds(t.regions[i], current, end);
      ChunkAligned(t, i, end);
      RangeStays(t, i, current, chunkEnd, end, change);
      ReplaceExact(t, i, current, chunkEnd, change, a);
      EditExact(Replace(t, i, current, chunkEnd, change), chunkEnd, end, change, a);
      Pages(current, chunkEnd, end);
    }
  }

  lemma {:induction false} StartMapped(regions: seq<Region>, current: u64, end: u64)
    requires RangeMapped(regions, current, end) && current < end
    ensures Scan(regions, current).Some?
  {
  }

  lemma {:induction false} WhereHolds(regions: seq<Region>, current: u64)
    ensures var i := Where(regions, current, 0);
            i <= |regions| && (i < |regions| ==> Holds(regions[i], current))
  {
  }

  lemma {:induction false} ChunkBounds(r: Region, current: u64, end: u64)
    requires Holds(r, current) && current < end
    ensures r.base <= current < ChunkEnd(r, end) <= End(r) && ChunkEnd(r, end) <= end
  {
  }

  lemma {:induction false} Pages(current: u64, chunkEnd: u64, end: u64)
    requires current < chunkEnd <= end && current % 0x1000 == 0 && chunkEnd % 0x1000 == 0
    ensures (end - chunkEnd) / 0x1000 + 1 <= (end - current) / 0x1000
  {
  }

  /** mm_unmap, mm_protect and mm_set_cpu_attrs. */
  ghost function Request(t: Table, address: u64, size: u64, change: Change): (Table, bool) {
    if size == 0 then (t, true)
    else if address % 0x1000 != 0 || size % 0x1000 != 0 || Wrap(address + size - 1) < address then (t, false)
    else if !RangeMapped(t.regions, address, Wrap(address + size)) then (t, false)
    else Edit(t, address, Wrap(address + size), change)
  }

  /** A request does all it was asked or nothing, and says which; except that a range up to the very top of the
      address space is granted without any effect. */
  lemma {:induction false} RequestExact(t: Table, address: u64, size: u64, change: Change, a: u64)
    requires WellFormed(t)
    ensures var (after, ok) := Request(t, address, size, change);
            var aligned := address % 0x1000 == 0 && size % 0x1000 == 0;
            && WellFormed(after)
            && (ok <==> size == 0 || (aligned && address + size <= WORD
                                      && RangeMapped(t.regions, address, Wrap(address + size))))
            && (!ok || address + size == WORD ==> after == t)
            && (ok ==> View(after, a) == if address <= a < Wrap(address + size) then Edited(View(t, a), change)
                       else View(t, a))
            && (t.version + size / 0x1000 < WORD ==> CodeKept(MemOf(t), MemOf(after)))
  {
    hide Edit, View, Edited, RangeMapped, WellFormed, MemOf, CodeKept;
    var end := Wrap(address + size);
    KeptMem(t, t);
    if size != 0 && address % 0x1000 == 0 && size % 0x1000 == 0 && RangeMapped(t.regions, address, end) {
      EndAligned(address, size);
      EditExact(t, address, end, change, a);
      if t.version + size / 0x1000 < WORD && address + size <= WORD {
        KeptMem(t, Edit(t, address, end, change).0);
      }
    }
  }

  lemma {:induction false} EndAligned(address: u64, size: u64)
    requires address % 0x1000 == 0 && size % 0x1000 == 0
    ensures Wrap(address + size) % 0x1000 == 0
    ensures size > 0 ==> (Wrap(address + size - 1) < address <==> address + size > WORD)
    ensures size > 0 && address + size < WORD ==> Wrap(address + size) - address == size
    ensures address + size == WORD ==> Wrap(address + size) == 0
  {
  }

  // The table as the rest of the model sees it.

  datatype Answer = Absent | Present(ptr: nat, rights: Rights)

  predicate Passing(t: Table) {
    t.passRead || t.passWrite || t.passExec
  }

  /** What a query answers when nothing is cached: the region, or the host's own page when accesses pass through. */
  function SlowQuery(t: Table, address: u64): Answer {
    match Scan(t.regions, address)
    case Some(r) => Present(r.data + (address - r.base), r.rights)
    case None => if Passing(t) then Present(address, Rights(t.passRead, t.passWrite, t.passExec, true)) else Absent
  }

  function PageStart(p: nat): u64
    requires p < 0x10_0000_0000_0000
  {
    p * 0x1000
  }

  function PageOf(a: Answer): Page
    requires a.Present?
  {
    Page(a.ptr, a.rights.read, a.rights.write, a.rights.exec, a.rights.user)
  }

  function MemOf(t: Table): Mem {
    Mem(map p: nat | p < 0x10_0000_0000_0000
        && SlowQuery(t, PageStart(p)).Present? :: PageOf(SlowQuery(t, PageStart(p))),
        [], Passing(t), t.host, t.version)
  }

  lemma {:induction false} KeptMem(t: Table, after: Table)
    requires t.version < after.version || after == t
    ensures CodeKept(MemOf(t), MemOf(after))
  {
    hide SlowQuery, CodeByte;
  }

  lemma {:induction false} PageUniform(regions: seq<Region>, a: u64, b: u64)
    requires (forall i :: 0 <= i < |regions| ==> Aligned(regions[i])) && a / 0x1000 == b / 0x1000
    ensures Scan(regions, a) == Scan(regions, b)
    decreases |regions|
  {
    if regions != [] {
      SamePage(regions[0], a, b);
      PageUniform(regions[1..], a, b);
    }
  }

  lemma {:induction false} SamePage(r: Region, a: u64, b: u64)
    requires Aligned(r) && a / 0x1000 == b / 0x1000
    ensures Holds(r, a) == Holds(r, b)
  {
  }

  lemma {:induction false} QueryUniform(t: Table, a: u64, b: u64)
    requires WellFormed(t) && a / 0x1000 == b / 0x1000 && b % 0x1000 == 0
    ensures SlowQuery(t, a)
            == match SlowQuery(t, b)
               case Absent => Absent
               case Present(ptr, rights) => Present(ptr + a % 0x1000, rights)
  {
    hide Scan, Holds;
    PageUniform(t.regions, a, b);
    SameBase(a, b);
    if Scan(t.regions, b).Some? {
      BaseBelow(Scan(t.regions, b).value, b);
    }
  }

  lemma {:induction false} SameBase(a: u64, b: u64)
    requires a / 0x1000 == b / 0x1000 && b % 0x1000 == 0
    ensures a == b + a % 0x1000
  {
  }

  lemma {:induction false} BaseBelow(r: Region, b: u64)
    requires Holds(r, b)
    ensures r.base <= b
  {
  }

  /** mm_get_ptr_checked on the region list is the page lookup the rest of the model uses. */
  lemma {:induction false} LookupIsQuery(t: Table, address: u64, access: Access)
    requires WellFormed(t)
    ensures Lookup(MemOf(t), address, access)
            == match SlowQuery(t, address)
               case Absent => Unmapped
               case Present(ptr, rights) =>
                 if (match access case Read => rights.read case Write => rights.write case Exec => rights.exec)
                 then Granted(ptr, rights.user) else Prot
  {
    hide SlowQuery, Scan, WellFormed;
    var p := address / 0x1000;
    PageAddress(p);
    QueryUniform(t, address, PageStart(p));
  }

  lemma {:induction false} PageAddress(p: nat)
    requires p < 0x10_0000_0000_0000
    ensures PageStart(p) / 0x1000 == p && PageStart(p) % 0x1000 == 0
  {
  }

  // Mapping.

  function InsertionIndex(regions: seq<Region>, base: u64, i: nat): (k: nat)
    requires i <= |regions|
    ensures i <= k <= |regions| && (k < |regions| ==> regions[k].base >= base)
    ensures forall j :: i <= j < k ==> regions[j].base < base
    decreases |regions| - i
  {
    if i == |regions| || regions[i].base >= base then i else InsertionIndex(regions, base, i + 1)
  }

  method FindInsertionIndex(regions: seq<Region>, base: u64) returns (index: nat)
    requires Sorted(regions)
    ensures index == InsertionIndex(regions, base, 0)
  {
    var left, right := 0, |regions|;
    while left < right
      invariant 0 <= left <= right <= |regions|
      invariant forall i :: 0 <= i < left ==> regions[i].base < base
      invariant forall i :: right <= i < |regions| ==> regions[i].base >= base
    {
      var mid := left + (right - left) / 2;
      if regions[mid].base < base {
        left := mid + 1;
      } else {
        right := mid;
      }
    }
    InsertionAt(regions, base, left);
    index := left;
  }

  lemma {:induction false} InsertionAt(regions: seq<Region>, base: u64, k: nat)
    requires k <= |regions| && (forall i :: 0 <= i < k ==> regions[i].base < base)
             && (k < |regions| ==> regions[k].base >= base)
    ensures InsertionIndex(regions, base, 0) == k
  {
    var i := InsertionIndex(regions, base, 0);
    if i < k {
      assert false;
    }
  }

  /** mm_has_overlap: only the neighbours of the place where the range would go are looked at. */
  predicate Overlapping(regions: seq<Region>, base: u64, size: u64) {
    size == 0 || Wrap(base + size - 1) < base
    || (var i := InsertionIndex(regions, base, 0);
        (i > 0 && End(regions[i - 1]) > base) || (i < |regions| && regions[i].base < Wrap(base + size)))
  }

  function Zeroed(host: map<nat, byte>, from: nat, n: nat): map<nat, byte>
    decreases n
  {
    if n == 0 then host else Zeroed(host, from, n - 1)[from + (n - 1) := 0]
  }

  lemma {:induction false} ZeroedCells(host: map<nat, byte>, from: nat, n: nat, p: nat)
    ensures Cell(Zeroed(host, from, n), p) == if from <= p < from + n then 0 else Cell(host, p)
    decreases n
  {
    if n > 0 { ZeroedCells(host, from, n - 1, p); }
  }

  function NewRegion(s: Store, base: u64, size: u64, rights: Rights, data: Option<nat>): (Store, Region) {
    match data
    case Some(ptr) => (Store(s.host, if ptr + size > s.heap then ptr + size else s.heap),
                       Region(base, size, ptr, rights, true))
    case None => (Store(Zeroed(s.host, s.heap, size), s.heap + size), Region(base, size, s.heap, rights, false))
  }

  /** mm_map_internal, which allocates zeroed bytes, and mm_map_host, which is given some. */
  function MapRegion(t: Table, base: u64, size: u64, rights: Rights, data: Option<nat>): (Table, bool) {
    if size == 0 || base % 0x1000 != 0 || size % 0x1000 != 0 || Wrap(base + size - 1) < base then (t, false)
    else if Overlapping(t.regions, base, size) then (t, false)
    else
      var i := InsertionIndex(t.regions, base, 0);
      var (s, r) := NewRegion(Store(t.host, t.heap), base, size, rights, data);
      (t.(regions := t.regions[..i] + [r] + t.regions[i..], host := s.host, heap := s.heap,
          version := BumpVersion(t.version)),
       true)
  }

  function FirstByte(t: Table, base: u64, a: u64, data: Option<nat>): byte
    requires base <= a
  {
    match data
    case Some(ptr) => Cell(t.host, ptr + (a - base))
    case None => 0
  }

  lemma {:induction false} NewExact(s: Store, base: u64, size: u64, rights: Rights, data: Option<nat>)
    requires base % 0x1000 == 0 && size % 0x1000 == 0 && size > 0 && base + size <= WORD
    ensures var (after, r) := NewRegion(s, base, size, rights, data);
            && Grown(s, after) && Proper(r, after.heap) && r.base == base && r.size == size
            && (forall a: u64 :: Holds(r, a) <==> base <= a < Wrap(base + size))
            && (forall a: u64 :: Holds(r, a) ==>
                  Sight(after.host, r, a)
                  == Seen(rights, match data case Some(ptr) => Cell(s.host, ptr + (a - base)) case None => 0))
  {
    hide Cell, Zeroed;
    var (after, r) := NewRegion(s, base, size, rights, data);
    if data == None {
      forall p: nat | p < s.heap ensures Cell(after.host, p) == Cell(s.host, p) {
        ZeroedCells(s.host, s.heap, size, p);
      }
      forall a: u64 | Holds(r, a) ensures Sight(after.host, r, a) == Seen(rights, 0) {
        ZeroedCells(s.host, s.heap, size, s.heap + (a - base));
      }
    }
  }

  /** What the overlap check looks for: a region that starts below the range and ends inside or above it, or starts
      inside. Ends are 64-bit, so a region or range that reaches the top is taken to end at 0. */
  predicate Meets(r: Region, base: u64, end: u64) {
    if r.base < base then End(r) > base else r.base < end
  }

  /** Looking at the two neighbours is enough. */
  lemma {:induction false} NeighboursDecide(t: Table, base: u64, size: u64)
    requires WellFormed(t) && size > 0 && base + size <= WORD
    ensures Overlapping(t.regions, base, size)
            <==> exists k :: 0 <= k < |t.regions| && Meets(t.regions[k], base, Wrap(base + size))
  {
    hide InsertionIndex, End;
    var i := InsertionIndex(t.regions, base, 0);
    InsertBound(t.regions, base);
    NoWrap(base, size);
    if Overlapping(t.regions, base, size) {
      var k := if i > 0 && End(t.regions[i - 1]) > base then i - 1 else i;
      assert Meets(t.regions[k], base, Wrap(base + size));
    } else if k :| 0 <= k < |t.regions| && Meets(t.regions[k], base, Wrap(base + size)) {
      NotMet(t.regions, base, Wrap(base + size), t.heap, k);
    }
  }

  lemma {:induction false} NoWrap(base: u64, size: u64)
    requires size > 0 && base + size <= WORD
    ensures Wrap(base + size - 1) >= base
  {
  }

  lemma {:induction false} NotMet(regions: seq<Region>, base: u64, end: u64, heap: nat, k: nat)
    requires Sorted(regions) && AllProper(regions, heap) && k < |regions| && Meets(regions[k], base, end)
    ensures var i := InsertionIndex(regions, base, 0);
            (i > 0 && End(regions[i - 1]) > base) || (i < |regions| && regions[i].base < end)
  {
    hide End;
    var i := InsertionIndex(regions, base, 0);
    assert forall j :: k < j < |regions| ==> End(regions[k]) <= regions[j].base;
    assert forall j :: 0 <= j < k ==> regions[j].base <= regions[k].base;
  }

  lemma {:induction false} Sides(regions: seq<Region>, heap: nat, r: Region, k: nat)
    requires Sorted(regions) && AllProper(regions, heap) && k < |regions| && !Meets(regions[k], r.base, End(r))
    ensures if k < InsertionIndex(regions, r.base, 0) then regions[k].base <= r.base && End(regions[k]) <= r.base
            else r.base <= regions[k].base && End(r) <= regions[k].base
  {
    hide End;
    var i := InsertionIndex(regions, r.base, 0);
    assert forall j :: 0 <= j < k ==> regions[j].base <= regions[k].base;
  }

  lemma {:induction false} SortedBlocks(x: seq<Region>, r: Region, y: seq<Region>)
    requires Sorted(x) && Sorted(y)
    requires forall k :: 0 <= k < |x| ==> x[k].base <= r.base && End(x[k]) <= r.base
    requires forall k :: 0 <= k < |y| ==> r.base <= y[k].base && End(r) <= y[k].base
    ensures Sorted(x + [r] + y)
  {
    hide End;
  }

  lemma {:induction false} InsertSorted(t: Table, r: Region, heap: nat, i: nat)
    requires WellFormed(t) && Proper(r, heap) && i == InsertionIndex(t.regions, r.base, 0) && t.heap <= heap
    requires forall k :: 0 <= k < |t.regions| ==> !Meets(t.regions[k], r.base, End(r))
    ensures Sorted(t.regions[..i] + [r] + t.regions[i..]) && AllProper(t.regions[..i] + [r] + t.regions[i..], heap)
  {
    hide InsertionIndex, Meets, End;
    InsertBound(t.regions, r.base);
    var x, y := t.regions[..i], t.regions[i..];
    forall k | 0 <= k < |x| ensures x[k].base <= r.base && End(x[k]) <= r.base {
      Sides(t.regions, t.heap, r, k);
    }
    forall k | 0 <= k < |y| ensures r.base <= y[k].base && End(r) <= y[k].base {
      Sides(t.regions, t.heap, r, i + k);
    }
    SortedBlocks(x, r, y);
    ConcatProper(x, [r], y, heap);
  }

  lemma {:induction false} InsertedView(host: map<nat, byte>, regions: seq<Region>, r: Region, i: nat, a: u64)
    requires i <= |regions| && (Holds(r, a) ==> Scan(regions, a) == None)
    ensures SeenIn(host, regions[..i] + [r] + regions[i..], a) == if Holds(r, a) then Sight(host, r, a)
            else SeenIn(host, regions, a)
  {
    hide Sight, Scan, SeenIn, Holds;
    assert regions == regions[..i] + regions[i..];
    SeenConcat(host, regions[..i] + [r], regions[i..], a);
    SeenConcat(host, regions[..i], [r], a);
    SeenConcat(host, regions[..i], regions[i..], a);
    SeenOne(host, r, a);
    SightSeen(host, regions, a);
    if Holds(r, a) {
      UnfoldSight(host, r, a);
    }
  }

  /** A mapping succeeds exactly when it is aligned, does not wrap and meets no region; it shows the new bytes up to
      its 64-bit end, leaves the rest as it was, and moves the code version. */
  lemma {:induction false} MapExact(t: Table, base: u64, size: u64, rights: Rights, data: Option<nat>, a: u64)
    requires WellFormed(t)
    ensures var (after, ok) := MapRegion(t, base, size, rights, data);
            && WellFormed(after) && (!ok ==> after == t)
            && (ok <==> size > 0 && base % 0x1000 == 0 && size % 0x1000 == 0 && base + size <= WORD
                        && forall k :: 0 <= k < |t.regions| ==> !Meets(t.regions[k], base, Wrap(base + size)))
            && (ok ==> View(after, a)
                       == if base <= a < Wrap(base + size) then Seen(rights, FirstByte(t, base, a, data))
                           else View(t, a))
            && (ok ==> after.version == BumpVersion(t.version))
  {
    hide Scan, Sight, Grown, Proper, NewRegion, Holds, SeenIn, Sorted, AllProper, Overlapping, InsertionIndex, Meets;
    if size > 0 && base % 0x1000 == 0 && size % 0x1000 == 0 {
      EndAligned(base, size);
      if base + size <= WORD {
        NeighboursDecide(t, base, size);
        if !Overlapping(t.regions, base, size) {
          var s0 := Store(t.host, t.heap);
          var (s, r) := NewRegion(s0, base, size, rights, data);
          var i := InsertionIndex(t.regions, base, 0);
          InsertBound(t.regions, base);
          NewExact(s0, base, size, rights, data);
          UnfoldGrown(s0, s);
          InsertSorted(t, r, s.heap, i);
          if Holds(r, a) {
            NobodyHolds(t.regions, r, a);
          }
          InsertedView(s.host, t.regions, r, i, a);
          PartsKept(s0, s, t.regions, a);
        }
      }
    }
  }

  lemma {:induction false} InsertBound(regions: seq<Region>, base: u64)
    ensures var i := InsertionIndex(regions, base, 0);
            && i <= |regions| && (i < |regions| ==> regions[i].base >= base)
            && forall j :: 0 <= j < i ==> regions[j].base < base
  {
  }

  lemma {:induction false} UnfoldGrown(s: Store, after: Store)
    requires Grown(s, after)
    ensures s.heap <= after.heap
  {
  }

  lemma {:induction false} NobodyHolds(regions: seq<Region>, r: Region, a: u64)
    requires Holds(r, a)
    requires forall k :: 0 <= k < |regions| ==> !Meets(regions[k], r.base, End(r))
    ensures Scan(regions, a) == None
  {
    hide End;
    forall k | 0 <= k < |regions| ensures !Holds(regions[k], a) {
    }
    ScanNone(regions, a);
  }

  /** At the top the 64-bit end of a region is zero: over any table, an accepted mapping that reaches the top changes
      nothing anyone sees, is found by no lookup, and can be made again. */
  lemma {:induction false} TopIsLost(t: Table, base: u64, size: u64, rights: Rights, data: Option<nat>, a: u64)
    requires WellFormed(t) && base + size == WORD
    ensures var (after, ok) := MapRegion(t, base, size, rights, data);
            && WellFormed(after) && View(after, a) == View(t, a)
            && (ok ==> |after.regions| == |t.regions| + 1 && MapRegion(after, base, size, rights, data).1)
  {
    hide View, Meets, WellFormed;
    MapExact(t, base, size, rights, data, a);
    var (after, ok) := MapRegion(t, base, size, rights, data);
    TopEnd(base, size);
    if ok {
      MapExact(after, base, size, rights, data, a);
      TopMeetsNobody(t, base, size, rights, data);
    }
  }

  lemma {:induction false} TopEnd(base: u64, size: u64)
    requires base + size == WORD
    ensures Wrap(base + size) == 0
  {
  }

  lemma {:induction false} TopMeetsNobody(t: Table, base: u64, size: u64, rights: Rights, data: Option<nat>)
    requires base + size == WORD && MapRegion(t, base, size, rights, data).1
    requires forall k :: 0 <= k < |t.regions| ==> !Meets(t.regions[k], base, 0)
    ensures var after := MapRegion(t, base, size, rights, data).0;
            |after.regions| == |t.regions| + 1 && forall k :: 0 <= k < |after.regions| ==>
                !Meets(after.regions[k], base, 0)
  {
    hide Meets, InsertionIndex, Zeroed, Overlapping;
    InsertBound(t.regions, base);
    var (s, r) := NewRegion(Store(t.host, t.heap), base, size, rights, data);
    MeetsTop(r, base, size);
  }

  lemma {:induction false} MeetsTop(r: Region, base: u64, size: u64)
    requires base + size == WORD && r.base == base
    ensures !Meets(r, base, 0)
  {
  }

  /** What a mapping adds is visible exactly when it ends below the top. */
  lemma {:induction false} MappedIsSeenIff(t: Table, base: u64, size: u64, rights: Rights, data: Option<nat>)
    requires WellFormed(t) && MapRegion(t, base, size, rights, data).1
    ensures View(MapRegion(t, base, size, rights, data).0, base) != View(t, base) <==> base + size < WORD
  {
    hide View, Meets, WellFormed;
    MapExact(t, base, size, rights, data, base);
    EndAligned(base, size);
    if base + size < WORD {
      FreeIsHidden(t, base, size);
    }
  }

  lemma {:induction false} FreeIsHidden(t: Table, base: u64, size: u64)
    requires 0 < size && base + size < WORD
    requires forall k :: 0 <= k < |t.regions| ==> !Meets(t.regions[k], base, Wrap(base + size))
    ensures View(t, base) == Hidden
  {
    hide Sight, End;
    forall k | 0 <= k < |t.regions| ensures !Holds(t.regions[k], base) {
    }
    ScanNone(t.regions, base);
  }

  // The manager, with its page cache.

  datatype CacheEntry = CacheEntry(valid: bool, pageBase: u64, hostPage: nat, rights: Rights)

  const NO_ENTRY := CacheEntry(false, 0, 0, Rights(false, false, false, false))

  /** A cached page answers as the region list would. */
  ghost predicate Right(t: Table, e: CacheEntry) {
    e.valid ==> e.pageBase % 0x1000 == 0 && SlowQuery(t, e.pageBase) == Present(e.hostPage, e.rights)
  }

  function CacheSlot(address: u64): (i: nat)
    ensures i < 256
  {
    address / 0x1000 % 256
  }

  lemma {:induction false} CachedAnswer(t: Table, e: CacheEntry, address: u64)
    requires WellFormed(t) && Right(t, e) && e.valid && e.pageBase == address / 0x1000 * 0x1000
    ensures SlowQuery(t, address) == Present(e.hostPage + (address - e.pageBase), e.rights)
  {
    hide SlowQuery, WellFormed;
    StartOfPage(address);
    QueryUniform(t, address, e.pageBase);
  }

  lemma {:induction false} StartOfPage(address: u64)
    ensures var start := address / 0x1000 * 0x1000;
            start / 0x1000 == address / 0x1000 && start % 0x1000 == 0 && address - start == address % 0x1000
  {
  }

  class Manager {
    var table: Table
    const cache: array<CacheEntry>

    /** However the cache came to be filled, it never answers otherwise than the region list. */
    ghost predicate Valid()
      reads this, cache
    {
      cache.Length == 256 && WellFormed(table) && forall i :: 0 <= i < cache.Length ==> Right(table, cache[i])
    }

    constructor ()
      ensures Valid() && fresh(cache) && table == Table([], map[], 0, false, false, false, 1)
    {
      table := Table([], map[], 0, false, false, false, 1);
      cache := new CacheEntry[256](_ => NO_ENTRY);
    }

    /** mm_query. */
    method Query(address: u64) returns (answer: Answer)
      requires Valid()
      modifies cache
      ensures Valid() && answer == SlowQuery(table, address)
    {
      hide SlowQuery, WellFormed;
      var pageBase: u64 := address / 0x1000 * 0x1000;
      var slot := CacheSlot(address);
      StartOfPage(address);
      if cache[slot].valid && cache[slot].pageBase == pageBase {
        CachedAnswer(table, cache[slot], address);
        return Present(cache[slot].hostPage + (address - pageBase), cache[slot].rights);
      }
      QueryUniform(table, address, pageBase);
      answer := AskRegions(address);
      if answer.Present? {
        cache[slot] := CacheEntry(true, pageBase, answer.ptr - (address - pageBase), answer.rights);
      }
    }

    method AskRegions(address: u64) returns (answer: Answer)
      requires WellFormed(table)
      ensures answer == SlowQuery(table, address)
    {
      hide Scan;
      var index := FindRegionIndex(table.regions, address);
      if index.Some? {
        var r := table.regions[index.value];
        ScanIndex(table.regions, address, index.value);
        return Present(r.data + (address - r.base), r.rights);
      }
      ScanNone(table.regions, address);
      if Passing(table) {
        return Present(address, Rights(table.passRead, table.passWrite, table.passExec, true));
      }
      return Absent;
    }

    method ForgetPages()
      requires cache.Length == 256
      modifies cache
      ensures forall i :: 0 <= i < cache.Length ==> cache[i] == NO_ENTRY
    {
      forall i | 0 <= i < cache.Length {
        cache[i] := NO_ENTRY;
      }
    }

    method SetHostPassthrough(read: bool, write: bool, exec: bool, enabled: bool)
      requires Valid()
      modifies this`table, cache
      ensures Valid()
      ensures table
              == old(table).(passRead := enabled && read, passWrite := enabled && write, passExec := enabled && exec,
                             version := BumpVersion(old(table).version))
    {
      table := table.(passRead := enabled && read, passWrite := enabled && write, passExec := enabled && exec,
                      version := BumpVersion(table.version));
      ForgetPages();
    }

    method Map(base: u64, size: u64, rights: Rights, data: Option<nat>) returns (ok: bool)
      requires Valid()
      modifies this`table, cache
      ensures Valid() && (table, ok) == MapRegion(old(table), base, size, rights, data)
    {
      hide SlowQuery, NewRegion, Sorted, AllProper, InsertionIndex, Right;
      MapExact(table, base, size, rights, data, 0);
      if size == 0 || base % 0x1000 != 0 || size % 0x1000 != 0 || Wrap(base + size - 1) < base {
        return false;
      }
      var i := FindInsertionIndex(table.regions, base);
      InsertBound(table.regions, base);
      if (i > 0 && End(table.regions[i - 1]) > base)
          || (i < |table.regions| && table.regions[i].base < Wrap(base + size)) {
        return false;
      }
      var (s, r) := NewRegion(Store(table.host, table.heap), base, size, rights, data);
      table := table.(regions := table.regions[..i] + [r] + table.regions[i..], host := s.host, heap := s.heap,
                      version := BumpVersion(table.version));
      ForgetPages();
      BlankRight(table);
      return true;
    }

    /** The check that the whole range is mapped, region by region. */
    method CheckRangeMapped(address: u64, end: u64) returns (ok: bool)
      requires Valid()
      ensures ok == RangeMapped(table.regions, address, end)
    {
      hide Scan;
      var current := address;
      while current < end
        invariant address <= current
        invariant address < end ==> current <= end
        invariant RangeMapped(table.regions, address, if current < end then current else end)
        decreases if current < end then end - current else 0
      {
        var index := FindRegionIndex(table.regions, current);
        if index.None? {
          ScanNone(table.regions, current);
          return false;
        }
        var r := table.regions[index.value];
        var next := if End(r) < end then End(r) else end;
        forall a: u64 | current <= a < next ensures Scan(table.regions, a).Some? {
          ScanIndex(table.regions, a, index.value);
        }
        current := next;
      }
      return true;
    }

    /** mm_unmap, mm_protect and mm_set_cpu_attrs. */
    method ChangeRange(address: u64, size: u64, change: Change) returns (ok: bool)
      requires Valid()
      modifies this`table, cache
      ensures Valid() && (table, ok) == Request(old(table), address, size, change)
    {
      hide Edit, RangeMapped, SlowQuery, WellFormed, View, Edited, CodeKept, MemOf, Right;
      ghost var before := table;
      RequestExact(table, address, size, change, 0);
      if size == 0 {
        return true;
      }
      if address % 0x1000 != 0 || size % 0x1000 != 0 || Wrap(address + size - 1) < address {
        return false;
      }
      var end := Wrap(address + size);
      var mapped := CheckRangeMapped(address, end);
      if !mapped {
        return false;
      }
      EndAligned(address, size);
      var current := address;
      while current < end
        invariant Edit(table, current, end, change) == Edit(before, address, end, change)
        invariant current % 0x1000 == 0 && RangeMapped(table.regions, current, end) && Valid()
        decreases if current < end then end - current else 0
      {
        current := ChangeRegion(current, end, change);
      }
      UnfoldEditEnd(table, current, end, change);
      return true;
    }

    method ChangeRegion(current: u64, end: u64, change: Change) returns (next: u64)
      requires Valid() && current < end && current % 0x1000 == 0 && end % 0x1000 == 0
               && RangeMapped(table.regions, current, end)
      modifies this`table, cache
      ensures Valid() && current < next && next % 0x1000 == 0 && RangeMapped(table.regions, next, end)
      ensures Edit(old(table), current, end, change) == Edit(table, next, end, change)
    {
      hide Replace, RangeMapped, SlowQuery, View, Edited, CodeKept, MemOf, Scan, Right;
      StartMapped(table.regions, current, end);
      var index := FindRegionIndex(table.regions, current);
      if index.None? {
        ScanNone(table.regions, current);
        assert false;
      }
      var i := index.value;
      WhereIs(table.regions, current, i);
      next := if End(table.regions[i]) < end then End(table.regions[i]) else end;
      ChunkAligned(table, i, end);
      RangeStays(table, i, current, next, end, change);
      ReplaceExact(table, i, current, next, change, 0);
      table := Replace(table, i, current, next, change);
      ForgetPages();
      BlankRight(table);
    }
  }

  lemma {:induction false} BlankRight(t: Table)
    ensures Right(t, NO_ENTRY)
  {
  }

  lemma {:induction false} WhereIs(regions: seq<Region>, address: u64, i: nat)
    requires Sorted(regions) && (forall k :: 0 <= k < |regions| ==> Aligned(regions[k])) && i < |regions|
             && Holds(regions[i], address)
    ensures Where(regions, address, 0) == i
  {
    var k := Where(regions, address, 0);
    if k < i {
      EndsBefore(regions, k, i);
      assert false;
    }
  }

  lemma {:induction false} UnfoldEditEnd(t: Table, current: u64, end: u64, change: Change)
    requires current >= end
    ensures Edit(t, current, end, change) == (t, true)
  {
  }
}
