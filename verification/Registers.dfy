/** Guest registers as scripts/register_locals.py tracks them: one unit for each
    register, and one for each bit of a condition field. */
module Registers {
  import opened Options

  datatype Reg = R(n: nat) | F(n: nat) | V(n: nat) | Cr(field: nat, bit: nat) | Ctr | Xer | Msr

  /** Destroyed by a call under the console's convention. */
  predicate Volatile(r: Reg) {
    match r
    case R(n) => n in {0, 2, 11, 12}
    case F(n) => n == 0
    case V(n) => 32 <= n < 64
    case Cr(field, _) => field in {0, 1, 5, 6, 7}
    case Ctr | Xer | Msr => true
  }

  /** The registers a prologue may save for its caller. */
  predicate Saveable(r: Reg) {
    match r
    case R(n) => 14 <= n < 32
    case F(n) => 14 <= n < 32
    case V(n) => 14 <= n < 32 || 64 <= n < 128
    case _ => false
  }

  /** The condition fields a call preserves under the convention. */
  const KEPT_FIELDS: set<Reg> := set field, bit | field in {2, 3, 4} && 0 <= bit < 4 :: Cr(field, bit)

  // ------------------------------------------------------------ classes

  const CONDITION: set<Reg> := set field, bit | 0 <= field < 8 && 0 <= bit < 4 :: Cr(field, bit)

  const NONARGUMENT: set<Reg> := {R(0), R(2), R(11), R(12), F(0)} + (set n | 32 <= n < 64 :: V(n))

  /** The class of registers that, once localised whole, makes the save and restore helpers useless. */
  const NONVOLATILE: set<Reg> :=
    (set n | 14 <= n < 32 :: R(n)) + (set n | 14 <= n < 32 :: F(n)) +
    (set n | 14 <= n < 32 :: V(n)) + (set n | 64 <= n < 128 :: V(n))

  function ClassOf(name: string): Option<set<Reg>> {
    match name
    case "ctr" => Some({Ctr})
    case "xer" => Some({Xer})
    case "cr" => Some(CONDITION)
    case "nonargument" => Some(NONARGUMENT)
    case "nonvolatile" => Some(NONVOLATILE)
    case _ => None
  }

  /** The names there are, and the registers each stands for. */
  lemma ClassNames(name: string, r: Reg)
    ensures ClassOf(name).Some? <==> name in {"ctr", "xer", "cr", "nonargument", "nonvolatile"}
    ensures r in ClassOf("ctr").value <==> r == Ctr
    ensures r in ClassOf("xer").value <==> r == Xer
    ensures r in ClassOf("cr").value <==> r.Cr? && r.field < 8 && r.bit < 4
    ensures r in ClassOf("nonargument").value <==>
      || (r.R? && (r.n == 0 || r.n == 2 || r.n == 11 || r.n == 12)) || r == F(0) || (r.V? && 32 <= r.n < 64)
    ensures r in ClassOf("nonvolatile").value <==>
      ((r.R? || r.F? || r.V?) && 14 <= r.n < 32) || (r.V? && 64 <= r.n < 128)
  {
  }

  /** parse_classes, on the names between the commas: an unknown one is refused. */
  method ParseClasses(names: seq<string>) returns (localised: Option<set<Reg>>)
    ensures localised.Some? <==> forall name | name in names :: ClassOf(name).Some?
    ensures localised.Some? ==> forall r :: r in localised.value <==>
      exists name :: name in names && ClassOf(name).Some? && r in ClassOf(name).value
    ensures localised.Some? ==> Selected(localised.value)
  {
    hide ClassOf;
    var result: set<Reg> := {};
    NoneSelected();
    for k := 0 to |names|
      invariant forall j | 0 <= j < k :: ClassOf(names[j]).Some?
      invariant forall r :: r in result <==> exists j ::
        0 <= j < k && ClassOf(names[j]).Some? && r in ClassOf(names[j]).value
      invariant Selected(result)
    {
      var picked := ClassOf(names[k]);
      if picked.None? {
        assert names[k] in names;
        return None;
      }
      SelectMore(result, names[k]);
      result := result + picked.value;
    }
    localised := Some(result);
    forall r | r in result
      ensures exists name :: name in names && ClassOf(name).Some? && r in ClassOf(name).value
    {
      var j :| 0 <= j < |names| && ClassOf(names[j]).Some? && r in ClassOf(names[j]).value;
      assert names[j] in names;
    }
  }

  /** Registers some class of the conversion can turn into a local. */
  predicate Localisable(r: Reg) {
    ((Volatile(r) && r != Msr) || Saveable(r) || r in KEPT_FIELDS) && (r.Cr? ==> r.bit < 4)
  }

  /** What whole classes make: whole names that can be locals, and of the registers a
      prologue may save all or none. */
  predicate Selected(localised: set<Reg>) {
    && (forall r | r in localised :: Localisable(r))
    && Widen(localised) == localised
    && (NONVOLATILE <= localised || forall r | r in localised :: !Saveable(r))
  }

  lemma NoneSelected()
    ensures Selected({})
  {
  }

  lemma SelectMore(localised: set<Reg>, name: string)
    requires Selected(localised) && ClassOf(name).Some?
    ensures Selected(localised + ClassOf(name).value)
  {
    hide *;
    ClassSelected(name);
    SelectBoth(localised, ClassOf(name).value);
  }

  lemma ClassSelected(name: string)
    requires ClassOf(name).Some?
    ensures Selected(ClassOf(name).value)
  {
    hide Widen;
    var picked := ClassOf(name).value;
    if picked == CONDITION {
      ConditionWhole();
    } else {
      NoFieldWhole(picked);
    }
  }

  lemma ClassesSelected()
    ensures Selected(CONDITION) && Selected(NONARGUMENT) && Selected(NONVOLATILE)
  {
    hide Selected, CONDITION, NONARGUMENT, NONVOLATILE;
    ClassSelected("cr");
    ClassSelected("nonargument");
    ClassSelected("nonvolatile");
  }

  lemma ConditionWhole()
    ensures Widen(CONDITION) == CONDITION
  {
  }

  lemma NoFieldWhole(s: set<Reg>)
    requires forall r | r in s :: !r.Cr?
    ensures Widen(s) == s
  {
  }

  lemma SelectBoth(a: set<Reg>, b: set<Reg>)
    requires Selected(a) && Selected(b)
    ensures Selected(a + b)
  {
    hide Localisable, NONVOLATILE;
    assert Widen(a + b) == Widen(a) + Widen(b);
  }

  /** Rounds a mask up to whole names: stores, loads and declarations are by name. */
  function Widen(s: set<Reg>): (w: set<Reg>)
    ensures s <= w
  {
    s + set q, bit | q in s && q.Cr? && 0 <= bit < 4 :: Cr(q.field, bit)
  }

  /** It adds exactly the bits of the fields a bit of which is there. */
  lemma WidenNames(s: set<Reg>, r: Reg)
    requires r.Cr? ==> r.bit < 4
    ensures r in Widen(s) <==> exists q | q in s :: q == r || (q.Cr? && r.Cr? && q.field == r.field)
  {
    if q :| q in s && q.Cr? && r.Cr? && q.field == r.field {
      assert r == Cr(q.field, r.bit);
    }
  }

  /** The registers of the convention, one by one: destroyed by a call, saved by a prologue, or
      kept by every call. */
  lemma ConventionIs(r: Reg)
    ensures Volatile(r) <==>
      || r in {R(0), R(2), R(11), R(12), F(0), Ctr, Xer, Msr} || (r.V? && 32 <= r.n < 64)
      || (r.Cr? && (r.field < 2 || 5 <= r.field <= 7))
    ensures Saveable(r) <==>
      ((r.R? || r.F? || r.V?) && 14 <= r.n <= 31) || (r.V? && 64 <= r.n <= 127)
    ensures r in KEPT_FIELDS <==> r.Cr? && 2 <= r.field <= 4 && r.bit < 4
  {
  }

  lemma KeptOrVolatileOrSaveable(r: Reg)
    requires Localisable(r)
    ensures Volatile(r) || Saveable(r) || r in KEPT_FIELDS
    ensures r in KEPT_FIELDS ==> !Volatile(r) && !Saveable(r)
    ensures Saveable(r) ==> !Volatile(r)
  {
  }

  lemma WidenMonotone(a: set<Reg>, b: set<Reg>)
    requires a <= b
    ensures Widen(a) <= Widen(b)
  {
  }
}
