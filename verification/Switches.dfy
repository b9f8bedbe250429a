/** Emitted dispatches (scripts/generate_diagnostic.py): the switch on the index that a jump
    table stands for, and the switch on CTR that takes its place. */
module Switches {
  import opened Options
  import opened Bits
  import opened PowerPC
  import opened JumpTables
  import opened Dispatch
  import opened Tables

  // ------------------------------------------------------------ the configured tables

  datatype Entry = Entry(base: nat, register: nat, labels: seq<nat>)

  predicate EntryValid(e: Entry) {
    && e.base % 4 == 0 && e.register < 32 && e.labels != []
    && forall k | 0 <= k < |e.labels| :: e.labels[k] % 4 == 0 && e.labels[k] < TWO_32
  }

  lemma EntriesValid(entries: seq<Entry>)
    ensures forall i | 0 <= i < |entries| ::
      var e := entries[i];
      EntryValid(e) <==>
        && e.base % 4 == 0 && e.register <= 31 && |e.labels| > 0
        && forall k | 0 <= k < |e.labels| :: e.labels[k] % 4 == 0 && e.labels[k] <= 0xFFFF_FFFF
  {
  }

  /** load_jump_tables: one table for each base, or an error. */
  method LoadJumpTables(entries: seq<Entry>) returns (r: Result<map<nat, Entry>>)
    ensures r.Accepted? <==>
      && (forall i | 0 <= i < |entries| ::
        var e := entries[i];
        && e.base % 4 == 0 && e.register <= 31 && |e.labels| > 0
        && forall k | 0 <= k < |e.labels| :: e.labels[k] % 4 == 0 && e.labels[k] <= 0xFFFF_FFFF)
      && (forall i, j | 0 <= i < j < |entries| :: entries[i].base != entries[j].base)
    ensures r.Accepted? ==> forall base :: base in r.value <==> exists i | 0 <= i < |entries| :: entries[i].base == base
    ensures r.Accepted? ==> forall i | 0 <= i < |entries| ::
      entries[i].base in r.value && r.value[entries[i].base] == entries[i]
  {
    EntriesValid(entries);
    hide EntryValid;
    var tables: map<nat, Entry> := map[];
    for k := 0 to |entries|
      invariant forall i | 0 <= i < k :: EntryValid(entries[i])
      invariant forall i, j | 0 <= i < j < k :: entries[i].base != entries[j].base
      invariant forall base :: base in tables <==> exists i | 0 <= i < k :: entries[i].base == base
      invariant forall i | 0 <= i < k :: entries[i].base in tables && tables[entries[i].base] == entries[i]
    {
      if entries[k].base in tables || !EntryValid(entries[k]) {
        return Rejected;
      }
      tables := tables[entries[k].base := entries[k]];
    }
    return Accepted(tables);
  }

  // ------------------------------------------------------------ switches

  /** One case of a switch: the value and the address of the label it goes to. */
  datatype Case = Case(value: nat, target: nat)

  /** Where a switch goes on a value; None is its default. */
  function Taken(cases: seq<Case>, value: nat): Option<nat> {
    if cases == [] then None
    else if cases[0].value == value then Some(cases[0].target)
    else Taken(cases[1..], value)
  }

  /** The cases as they are emitted first: the index of each label goes to it. */
  function IndexCases(labels: seq<nat>): (cases: seq<Case>)
    ensures |cases| == |labels|
  {
    seq(|labels|, i requires 0 <= i < |labels| => Case(i, labels[i]))
  }

  /** The cases on CTR: each label once, in order, going to itself. */
  predicate IsCtrCases(cases: seq<Case>, labels: seq<nat>) {
    && (forall i, j | 0 <= i < j < |cases| :: cases[i].value < cases[j].value)
    && (forall i | 0 <= i < |cases| :: cases[i].target == cases[i].value && cases[i].value in labels)
    && (forall entry | entry in labels :: exists i :: 0 <= i < |cases| && cases[i].value == entry)
  }

  lemma {:induction false} TakenAt(cases: seq<Case>, value: nat, at: nat)
    requires at < |cases| && cases[at].value == value
    requires forall i | 0 <= i < at :: cases[i].value != value
    ensures Taken(cases, value) == Some(cases[at].target)
  {
    if at > 0 {
      TakenAt(cases[1..], value, at - 1);
    }
  }

  lemma {:induction false} TakenNowhere(cases: seq<Case>, value: nat)
    requires forall i | 0 <= i < |cases| :: cases[i].value != value
    ensures Taken(cases, value) == None
  {
    if cases != [] {
      TakenNowhere(cases[1..], value);
    }
  }

  /** The switch on CTR goes to the value itself when it is a label, and stops on anything else. */
  lemma CtrTaken(cases: seq<Case>, labels: seq<nat>, ctr: nat)
    requires IsCtrCases(cases, labels)
    ensures Taken(cases, ctr) == if ctr in labels then Some(ctr) else None
  {
    if ctr in labels {
      var i :| 0 <= i < |cases| && cases[i].value == ctr;
      TakenAt(cases, ctr, i);
    } else {
      TakenNowhere(cases, ctr);
    }
  }

  lemma IndexTaken(labels: seq<nat>, index: nat)
    ensures Taken(IndexCases(labels), index) == if index < |labels| then Some(labels[index]) else None
  {
    if index < |labels| {
      TakenAt(IndexCases(labels), index, index);
    } else {
      TakenNowhere(IndexCases(labels), index);
    }
  }

  /** The two switches agree exactly when CTR holds the label of the index. */
  lemma SwitchesAgree(cases: seq<Case>, labels: seq<nat>, index: nat, ctr: nat)
    requires IsCtrCases(cases, labels) && index < |labels|
    ensures Taken(cases, ctr) == Taken(IndexCases(labels), index) <==> ctr == labels[index]
  {
    CtrTaken(cases, labels, ctr);
    IndexTaken(labels, index);
  }

  /** sorted(set(labels)), as cases. */
  method CtrCases(labels: seq<nat>) returns (cases: seq<Case>)
    ensures IsCtrCases(cases, labels)
  {
    cases := [];
    for k := 0 to |labels|
      invariant IsCtrCases(cases, labels[..k])
    {
      var at := 0;
      while at < |cases| && cases[at].value < labels[k]
        invariant 0 <= at <= |cases|
        invariant forall i | 0 <= i < at :: cases[i].value < labels[k]
      {
        at := at + 1;
      }
      assert labels[..k + 1] == labels[..k] + [labels[k]];
      if at < |cases| && cases[at].value == labels[k] {
        Repeated(cases, labels[..k], labels[k], at);
      } else {
        Inserted(cases, labels[..k], labels[k], at);
        cases := cases[..at] + [Case(labels[k], labels[k])] + cases[at..];
      }
    }
    assert labels[..|labels|] == labels;
  }

  lemma Repeated(cases: seq<Case>, labels: seq<nat>, entry: nat, at: nat)
    requires IsCtrCases(cases, labels) && at < |cases| && cases[at].value == entry
    ensures IsCtrCases(cases, labels + [entry])
  {
  }

  /** The new case has its place: below it smaller values, above it greater ones. */
  lemma Inserted(cases: seq<Case>, labels: seq<nat>, entry: nat, at: nat)
    requires IsCtrCases(cases, labels) && at <= |cases|
    requires forall i | 0 <= i < at :: cases[i].value < entry
    requires at < |cases| ==> entry < cases[at].value
    ensures IsCtrCases(cases[..at] + [Case(entry, entry)] + cases[at..], labels + [entry])
  {
    hide Shifted;
    var added := cases[..at] + [Case(entry, entry)] + cases[at..];
    ShiftedIs(cases, entry, at);
    InsertedOrder(cases, labels, entry, at);
    InsertedCases(cases, labels, entry, at);
    InsertedAll(cases, labels, entry, at);
    forall e | e in labels + [entry] ensures exists i :: 0 <= i < |added| && added[i].value == e {
      var i :| 0 <= i <= |cases| && Shifted(cases, entry, at, i).value == e;
      assert added[i].value == e;
    }
  }

  lemma ShiftedIs(cases: seq<Case>, entry: nat, at: nat)
    requires at <= |cases|
    ensures var added := cases[..at] + [Case(entry, entry)] + cases[at..];
      |added| == |cases| + 1 && forall i | 0 <= i < |added| :: added[i] == Shifted(cases, entry, at, i)
  {
  }

  function Shifted(cases: seq<Case>, entry: nat, at: nat, i: nat): Case
    requires at <= |cases| && i <= |cases|
  {
    if i < at then cases[i] else if i == at then Case(entry, entry) else cases[i - 1]
  }

  lemma InsertedOrder(cases: seq<Case>, labels: seq<nat>, entry: nat, at: nat)
    requires IsCtrCases(cases, labels) && at <= |cases|
    requires forall i | 0 <= i < at :: cases[i].value < entry
    requires at < |cases| ==> entry < cases[at].value
    ensures forall i, j | 0 <= i < j <= |cases| ::
      Shifted(cases, entry, at, i).value < Shifted(cases, entry, at, j).value
  {
  }

  lemma InsertedCases(cases: seq<Case>, labels: seq<nat>, entry: nat, at: nat)
    requires IsCtrCases(cases, labels) && at <= |cases|
    ensures forall i | 0 <= i <= |cases| ::
      Shifted(cases, entry, at, i).target == Shifted(cases, entry, at, i).value
        && Shifted(cases, entry, at, i).value in labels + [entry]
  {
  }

  lemma InsertedAll(cases: seq<Case>, labels: seq<nat>, entry: nat, at: nat)
    requires IsCtrCases(cases, labels) && at <= |cases|
    ensures forall e | e in labels + [entry] :: exists i :: 0 <= i <= |cases| && Shifted(cases, entry, at, i).value == e
  {
    forall e | e in labels + [entry] ensures exists i :: 0 <= i <= |cases| && Shifted(cases, entry, at, i).value == e {
      if e == entry {
        assert Shifted(cases, entry, at, at).value == e;
      } else {
        assert e in labels;
        var i :| 0 <= i < |cases| && cases[i].value == e;
        assert Shifted(cases, entry, at, if i < at then i else i + 1).value == e;
      }
    }
  }

  /** A recovered table dispatched on CTR: on every run through the block to the
      bctr it goes where the index switch goes, to the label of the index at the compare. */
  lemma DispatchKept(image: Image, begin: int, bctr: int, b: Bound, labels: seq<Word>, cases: seq<Case>, st: seq<State>)
    requires Loaded(image) && Bounds(image, bctr, b) && |labels| == b.limit + 1
    requires Block(begin, b.compare) && b.compare < bctr && b.register < 32
    requires Dispatches(image, begin, bctr, b, labels) && IsCtrCases(cases, labels) && Straight(image, begin, bctr, st)
    ensures |st| > (b.compare - begin) / 4 && ValidState(st[(b.compare - begin) / 4])
    ensures st[(b.compare - begin) / 4].gpr[b.register] <= b.limit
      && Taken(cases, Last(st).ctr) == Taken(IndexCases(labels), st[(b.compare - begin) / 4].gpr[b.register])
      && Taken(cases, Last(st).ctr) == Some(labels[st[(b.compare - begin) / 4].gpr[b.register]])
  {
    hide Bounds, Straight, IsCtrCases, Taken, IndexCases, Relates;
    BoundsSpan(image, bctr, b);
    StraightStates(image, begin, bctr, st);
    assert DispatchedTo(image, begin, bctr, b, labels, st);
    var index := st[(b.compare - begin) / 4].gpr[b.register];
    SwitchesAgree(cases, labels, index, Last(st).ctr);
    CtrTaken(cases, labels, Last(st).ctr);
  }

  // ------------------------------------------------------------ rewriting a body

  /** One instruction of an emitted body with the dispatch that follows it. */
  datatype Item =
    | Plain
    | Bctr
    | IndexSwitch(register: nat, cases: seq<Case>)
    | CtrSwitch(cases: seq<Case>)

  /** What the source emits for a table, and what it becomes. */
  ghost predicate Rewritten(item: Item, table: Entry, after: Item) {
    && item == IndexSwitch(table.register, IndexCases(table.labels))
    && after.CtrSwitch? && IsCtrCases(after.cases, table.labels)
  }

  predicate Configured(tables: map<nat, Entry>, pc: nat, item: Item) {
    pc in tables && item == IndexSwitch(tables[pc].register, IndexCases(tables[pc].labels))
  }

  /** What becomes of one instruction. */
  ghost predicate ItemDone(tables: map<nat, Entry>, pc: nat, item: Item, after: Item) {
    if Configured(tables, pc, item) then Rewritten(item, tables[pc], after) else after == item
  }

  /** rewrite_jump_tables: each configured bctr that carries the expected index switch is
      dispatched on CTR; a configured address with anything else is reported, and nothing
      else changes. */
  method RewriteJumpTables(body: seq<Item>, address: nat, tables: map<nat, Entry>)
      returns (after: seq<Item>, rewritten: seq<nat>, invalid: seq<nat>)
    ensures |after| == |body| && forall k | 0 <= k < |body| :: ItemDone(tables, address + 4 * k, body[k], after[k])
    ensures forall pc :: pc in rewritten <==> exists k | 0 <= k < |body| ::
      pc == address + 4 * k && Configured(tables, pc, body[k])
    ensures forall pc :: pc in invalid <==> exists k | 0 <= k < |body| ::
      pc == address + 4 * k && pc in tables && !Configured(tables, pc, body[k])
  {
    hide IndexCases, IsCtrCases;
    after, rewritten, invalid := [], [], [];
    for k := 0 to |body|
      invariant |after| == k && forall i | 0 <= i < k :: ItemDone(tables, address + 4 * i, body[i], after[i])
      invariant forall pc :: pc in rewritten <==> exists i | 0 <= i < k ::
        pc == address + 4 * i && Configured(tables, pc, body[i])
      invariant forall pc :: pc in invalid <==> exists i | 0 <= i < k ::
        pc == address + 4 * i && pc in tables && !Configured(tables, pc, body[i])
    {
      var pc := address + 4 * k;
      var item := body[k];
      if pc in tables {
        if item == IndexSwitch(tables[pc].register, IndexCases(tables[pc].labels)) {
          var cases := CtrCases(tables[pc].labels);
          item := CtrSwitch(cases);
          rewritten := rewritten + [pc];
        } else {
          invalid := invalid + [pc];
        }
      }
      after := after + [item];
    }
  }
}
