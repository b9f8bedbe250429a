/** function_extent: the code reachable from an address, found by a worklist. */
module Extent {
  import opened Options
  import opened Bits
  import opened PowerPC
  import opened JumpTables
  import opened Tables

  /** The code searched, [start, limit), and the labels of each bctr with a table. */
  datatype Search = Search(image: Image, start: int, limit: int, tables: map<int, seq<Word>>)

  ghost predicate Valid(s: Search) {
    && Loaded(s.image) && IMAGE_BASE <= s.start && s.limit <= TEXT_END
    && s.start % 4 == 0 && s.limit % 4 == 0
    && forall base | base in s.tables :: forall k | 0 <= k < |s.tables[base]| :: s.tables[base][k] % 4 == 0
  }

  predicate Inside(s: Search, address: int) {
    s.start <= address < s.limit && address % 4 == 0
  }

  predicate Near(s: Search, target: Option<Word>) {
    target.Some? && s.start <= target.value < s.limit
  }

  /** Where control goes from an address: fallthrough, a branch inside the range, the labels
      of a table. A call returns to the next instruction; other branches leave. */
  function Successors(s: Search, address: int): set<int>
    requires Valid(s) && Inside(s, address)
  {
    var word := WordAt(s.image, address);
    var target := Destination(word, address);
    var near: set<int> := if Near(s, target) then {target.value as int} else {};
    if word == BLR then {}
    else if word == BCTR then
      if address in s.tables then set k | 0 <= k < |s.tables[address]| :: (s.tables[address][k] as int) else {}
    else if Opcode(word) == 18 then if word % 2 == 1 then {address + 4} else near
    else near + {address + 4}
  }

  /** Code the search may not reach: outside the range, or padding. */
  predicate Bad(s: Search, address: int)
    requires Valid(s)
  {
    !Inside(s, address) || WordAt(s.image, address) == 0
  }

  ghost predicate IsNext(s: Search, address: int, next: int)
    requires Valid(s)
  {
    !Bad(s, address) && next in Successors(s, address)
  }

  /** A way control may take from the start. */
  ghost predicate Way(s: Search, way: seq<int>)
    requires Valid(s)
  {
    && way != [] && way[0] == s.start
    && forall k: nat | k + 1 < |way| :: IsNext(s, way[k], way[k + 1])
  }

  ghost predicate Reachable(s: Search, address: int)
    requires Valid(s)
  {
    exists way :: Way(s, way) && way[|way| - 1] == address
  }

  lemma StartReachable(s: Search)
    requires Valid(s)
    ensures Reachable(s, s.start)
  {
    assert Way(s, [s.start]);
  }

  lemma NextReachable(s: Search, address: int, next: int)
    requires Valid(s) && Reachable(s, address) && IsNext(s, address, next)
    ensures Reachable(s, next)
  {
    hide IsNext;
    var way: seq<int> :| Way(s, way) && way[|way| - 1] == address;
    var longer := way + [next];
    forall k: nat | k + 1 < |longer| ensures IsNext(s, longer[k], longer[k + 1]) {
    }
    assert Way(s, longer) && longer[|longer| - 1] == next;
  }

  /** Everything that follows a visited address is visited or waiting. */
  ghost predicate Closed(s: Search, seen: set<int>, waiting: set<int>)
    requires Valid(s)
  {
    && s.start in seen + waiting
    && forall a, b | a in seen && IsNext(s, a, b) :: b in seen + waiting
  }

  lemma {:induction false} ClosedHolds(s: Search, seen: set<int>, way: seq<int>)
    requires Valid(s) && Closed(s, seen, {}) && Way(s, way)
    ensures way[|way| - 1] in seen
    decreases |way|
  {
    hide IsNext;
    if |way| > 1 {
      var before := way[..|way| - 1];
      forall k: nat | k + 1 < |before| ensures IsNext(s, before[k], before[k + 1]) {
        assert IsNext(s, way[k], way[k + 1]);
      }
      ClosedHolds(s, seen, before);
      assert IsNext(s, way[|way| - 2], way[|way| - 2 + 1]);
    }
  }

  lemma ReachableSeen(s: Search, seen: set<int>)
    requires Valid(s) && Closed(s, seen, {})
    ensures forall address | Reachable(s, address) :: address in seen
  {
    forall address | Reachable(s, address) ensures address in seen {
      var way: seq<int> :| Way(s, way) && way[|way| - 1] == address;
      ClosedHolds(s, seen, way);
    }
  }

  /** Visiting one more address, once what follows it is waiting. */
  lemma Visit(s: Search, seen: set<int>, waiting: set<int>, address: int, after: set<int>)
    requires Valid(s) && Closed(s, seen, waiting) && waiting <= after + {address}
    requires forall b | IsNext(s, address, b) :: b in after
    ensures Closed(s, seen + {address}, after)
  {
    hide IsNext;
  }

  lemma TargetAligned(address: int, word: Word)
    requires address % 4 == 0
    ensures BranchTarget(address, word).Some? ==> BranchTarget(address, word).value % 4 == 0
  {
    hide Wrap, S16, Opcode, Immediate;
    var far, near := word % 0x0400_0000 / 4, Immediate(word) / 4;
    FourTimes(address, far);
    FourTimes(address, far - 0x0100_0000);
    NearAligned(near);
    SumAligned(address, S16(near * 4));
  }

  lemma SumAligned(x: int, y: int)
    requires x % 4 == 0 && y % 4 == 0
    ensures Wrap(y) % 4 == 0 && Wrap(x + y) % 4 == 0
  {
    WrapAligned(y / 4);
    WrapAligned(x / 4 + y / 4);
  }

  lemma WrapAligned(quarter: int)
    ensures Wrap(quarter * 4) % 4 == 0
  {
    var wrapped, whole := quarter * 4 % TWO_32, quarter * 4 / TWO_32;
    assert quarter * 4 == TWO_32 * whole + wrapped;
    assert wrapped == 4 * (quarter - 0x4000_0000 * whole);
  }

  lemma FourTimes(x: int, y: int)
    requires x % 4 == 0
    ensures Wrap(y * 4) % 4 == 0 && Wrap(x + y * 4) % 4 == 0
  {
    assert y * 4 % 4 == 0;
    SumAligned(x, y * 4);
  }

  lemma NearAligned(quarter: nat)
    requires quarter < 0x4000
    ensures S16(quarter * 4) % 4 == 0
  {
  }

  function Elements(s: seq<int>): set<int> {
    set k | 0 <= k < |s| :: s[k]
  }

  /** The addresses that may be visited at all. */
  function Range(s: Search): set<int> {
    set a: int | s.start <= a < s.limit && Inside(s, a)
  }

  ghost predicate Waiting(s: Search, pending: seq<int>)
    requires Valid(s)
  {
    forall k | 0 <= k < |pending| :: pending[k] % 4 == 0 && Reachable(s, pending[k])
  }

  ghost predicate Visited(s: Search, seen: set<int>, end: int)
    requires Valid(s)
  {
    && (forall a | a in seen :: !Bad(s, a) && Reachable(s, a) && a + 4 <= end)
    && (if seen == {} then end == s.start else end - 4 in seen)
  }

  lemma PushLast(s: Search, pending: seq<int>, more: seq<int>, address: int)
    requires Valid(s) && Waiting(s, pending) && Reachable(s, address)
    requires forall k | 0 <= k < |more| :: more[k] % 4 == 0 && IsNext(s, address, more[k])
    ensures Waiting(s, pending + more) && Elements(pending + more) == Elements(pending) + Elements(more)
  {
    hide Reachable, IsNext;
    forall k | 0 <= k < |more| ensures Reachable(s, more[k]) {
      NextReachable(s, address, more[k]);
    }
    assert forall k | 0 <= k < |pending| :: (pending + more)[k] == pending[k];
    assert forall k | 0 <= k < |more| :: (pending + more)[|pending| + k] == more[k];
  }

  lemma PopLast(s: Search, pending: seq<int>)
    requires Valid(s) && pending != [] && Waiting(s, pending)
    ensures Waiting(s, pending[..|pending| - 1])
    ensures pending[|pending| - 1] % 4 == 0 && Reachable(s, pending[|pending| - 1])
    ensures Elements(pending) == Elements(pending[..|pending| - 1]) + {pending[|pending| - 1]}
  {
  }

  lemma ElementsOne(x: int)
    ensures Elements([x]) == {x}
  {
    assert [x][0] == x;
  }

  lemma SeenNow(s: Search, seen: set<int>, waiting: set<int>, address: int)
    requires Valid(s) && Closed(s, seen, waiting + {address}) && address in seen
    ensures Closed(s, seen, waiting)
  {
    hide IsNext;
  }

  lemma VisitedOne(s: Search, seen: set<int>, end: int, address: int)
    requires Valid(s) && Visited(s, seen, end) && Inside(s, address) && !Bad(s, address) && Reachable(s, address)
    ensures Visited(s, seen + {address}, if end > address + 4 then end else address + 4)
  {
    hide Bad, Reachable;
  }

  lemma PushLabels(s: Search, pending: seq<int>, address: int)
    requires Valid(s) && Waiting(s, pending) && Reachable(s, address) && Inside(s, address)
    requires WordAt(s.image, address) == BCTR && address in s.tables
    ensures Waiting(s, pending + s.tables[address])
    ensures Elements(pending + s.tables[address]) == Elements(pending) + Elements(s.tables[address])
  {
    hide Reachable, IsNext, BranchTarget, Waiting;
    var labels: seq<int> := s.tables[address];
    forall k | 0 <= k < |labels| ensures IsNext(s, address, labels[k]) {
      Follow(s, address, BCTR, BranchTarget(address, BCTR), labels[k]);
    }
    PushLast(s, pending, labels, address);
  }

  /** function_extent: rejected exactly when the search reaches padding or code out of the
      range; otherwise every reachable address, and no other, has been visited. */
  method FunctionExtent(s: Search) returns (r: Result<int>, ghost seen: set<int>)
    requires Valid(s)
    ensures r.Rejected? <==> exists address :: Reachable(s, address) && Bad(s, address)
    ensures r.Accepted? ==>
      && (forall address :: address in seen <==> Reachable(s, address))
      && (forall address | address in seen :: !Bad(s, address) && address + 4 <= r.value)
      && r.value - 4 in seen
  {
    hide *;
    var pending := [s.start];
    var visited: set<int> := {};
    var end := s.start;
    Begin(s);
    while pending != []
      invariant Waiting(s, pending) && Visited(s, visited, end) && Closed(s, visited, Elements(pending))
      decreases Range(s) - visited, |pending|
    {
      PopLast(s, pending);
      var address := pending[|pending| - 1];
      pending := pending[..|pending| - 1];
      ghost var before, left := visited, pending;
      while address !in visited
        invariant address % 4 == 0 && Reachable(s, address)
        invariant Waiting(s, pending) && Visited(s, visited, end) && Closed(s, visited, Elements(pending) + {address})
        invariant Range(s) - visited < Range(s) - before || (visited == before && pending == left)
        decreases Range(s) - visited
      {
        RangeBad(s, address);
        if !(s.start <= address < s.limit) {
          return Rejected, visited;
        }
        var word := WordAt(s.image, address);
        if word == 0 {
          return Rejected, visited;
        }
        VisitedOne(s, visited, end, address);
        Smaller(s, visited, address);
        ghost var now, waiting := visited, Elements(pending) + {address};
        visited := visited + {address};
        end := if end > address + 4 then end else address + 4;
        var target := BranchTarget(address, word);
        TargetAligned(address, word);
        forall b {
          Follow(s, address, word, target, b);
        }
        if word == BLR {
          Visit(s, now, waiting, address, Elements(pending));
          SeenWaits(s, visited, Elements(pending), address);
          break;
        }
        if word == BCTR {
          if address in s.tables {
            PushLabels(s, pending, address);
            pending := pending + s.tables[address];
          }
          Visit(s, now, waiting, address, Elements(pending));
          SeenWaits(s, visited, Elements(pending), address);
          break;
        }
        if Opcode(word) == 18 {
          if word % 2 == 1 {
            Visit(s, now, waiting, address, Elements(pending) + {address + 4});
            NextReachable(s, address, address + 4);
            address := address + 4;
            continue;
          }
          NearIs(s, target);
          if !(s.start <= target.value < s.limit) {
            Visit(s, now, waiting, address, Elements(pending));
            SeenWaits(s, visited, Elements(pending), address);
            break;
          }
          Visit(s, now, waiting, address, Elements(pending) + {target.value as int});
          NextReachable(s, address, target.value);
          address := target.value;
          continue;
        }
        NearIs(s, target);
        if target.Some? && s.start <= target.value < s.limit {
          PushLast(s, pending, [target.value], address);
          ElementsOne(target.value);
          pending := pending + [target.value];
        }
        Visit(s, now, waiting, address, Elements(pending) + {address + 4});
        NextReachable(s, address, address + 4);
        address := address + 4;
      }
      SeenNow(s, visited, Elements(pending), address);
    }
    seen := visited;
    Finished(s, visited, end);
    return Accepted(end), visited;
  }

  lemma NearIs(s: Search, target: Option<Word>)
    ensures Near(s, target) <==> target.Some? && s.start <= target.value < s.limit
  {
  }

  lemma Begin(s: Search)
    requires Valid(s)
    ensures Waiting(s, [s.start]) && Visited(s, {}, s.start) && Closed(s, {}, Elements([s.start]))
  {
    hide Reachable, Bad, IsNext;
    StartReachable(s);
    assert [s.start][0] in Elements([s.start]);
  }

  lemma RangeBad(s: Search, address: int)
    requires Valid(s) && address % 4 == 0
    ensures Inside(s, address) <==> s.start <= address < s.limit
    ensures Loaded(s.image) && (s.start <= address < s.limit ==> InImage(address))
    ensures Bad(s, address) <==> !(s.start <= address < s.limit) || WordAt(s.image, address) == 0
  {
  }

  lemma SeenWaits(s: Search, seen: set<int>, waiting: set<int>, address: int)
    requires Valid(s) && Closed(s, seen, waiting)
    ensures Closed(s, seen, waiting + {address})
  {
    hide IsNext;
  }

  lemma Finished(s: Search, seen: set<int>, end: int)
    requires Valid(s) && Closed(s, seen, Elements([])) && Visited(s, seen, end)
    ensures forall address :: address in seen <==> Reachable(s, address)
    ensures forall address | address in seen :: !Bad(s, address) && address + 4 <= end
    ensures end - 4 in seen
    ensures !exists address :: Reachable(s, address) && Bad(s, address)
  {
    hide Reachable, Bad, IsNext;
    assert Elements([]) == {};
    ReachableSeen(s, seen);
  }

  /** The cases of the search, each as what follows the address. */
  lemma Follow(s: Search, address: int, word: Word, target: Option<Word>, b: int)
    requires Valid(s) && Inside(s, address) && word == WordAt(s.image, address) && word != 0
      && target == BranchTarget(address, word)
    ensures word == BLR ==> !IsNext(s, address, b)
    ensures word == BCTR ==> (IsNext(s, address, b) <==> address in s.tables && b in Elements(s.tables[address]))
    ensures word != BLR && word != BCTR && Opcode(word) == 18 && word % 2 == 1
      ==> (IsNext(s, address, b) <==> b == address + 4)
    ensures word != BLR && word != BCTR && Opcode(word) == 18 && word % 2 == 0 ==>
      target.Some? && (IsNext(s, address, b) <==> Near(s, target) && b == target.value)
    ensures word != BLR && word != BCTR && Opcode(word) != 18 ==>
      (IsNext(s, address, b) <==> b == address + 4 || (Near(s, target) && b == target.value))
  {
    hide BranchTarget, Destination, WordAt;
    BranchTargetIs(address, word);
    SuccessorCases(s, address, word);
    JumpHasTarget(address, word);
  }

  lemma SuccessorCases(s: Search, address: int, word: Word)
    requires Valid(s) && Inside(s, address) && word == WordAt(s.image, address)
    ensures word == BCTR ==> Successors(s, address) == if address in s.tables then Elements(s.tables[address]) else {}
  {
  }

  lemma JumpHasTarget(address: int, word: Word)
    ensures Opcode(word) == 18 && word % 2 == 0 ==> BranchTarget(address, word).Some?
  {
  }

  /** Visiting an address makes the rest of the range smaller. */
  lemma Smaller(s: Search, seen: set<int>, address: int)
    requires Inside(s, address) && address !in seen
    ensures Range(s) - (seen + {address}) < Range(s) - seen
  {
    assert address in Range(s) - seen;
  }
}
