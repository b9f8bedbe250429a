/** The members of a session, and what JOIN and LEAVE make of them (server/live_server.py). */
module LobbyMembers {
  import opened Options

  const MAX_MEMBERS: nat := 64

  /** A word of JOIN: a member, and whether it takes a closed slot. */
  datatype Slot = Slot(xuid: int, closed: bool)

  /** JOIN, word by word: it stops at a word that is not a slot, or at the first new member
      past the limit; what came before stays. */
  function Joined(members: map<int, bool>, slots: seq<Option<Slot>>): (map<int, bool>, bool)
    decreases |slots|
  {
    if slots == [] then (members, true)
    else match slots[0]
      case None => (members, false)
      case Some(slot) =>
        if slot.xuid !in members && |members| >= MAX_MEMBERS then (members, false)
        else Joined(members[slot.xuid := slot.closed], slots[1..])
  }

  function Left(members: map<int, bool>, xuids: seq<Option<int>>): (map<int, bool>, bool)
    decreases |xuids|
  {
    if xuids == [] then (members, true)
    else match xuids[0]
      case None => (members, false)
      case Some(xuid) => Left(members - {xuid}, xuids[1..])
  }

  /** Joining keeps every member there was and never passes the limit. */
  lemma {:induction false} JoinedFits(members: map<int, bool>, slots: seq<Option<Slot>>)
    requires |members| <= MAX_MEMBERS
    ensures |Joined(members, slots).0| <= MAX_MEMBERS && members.Keys <= Joined(members, slots).0.Keys
    decreases |slots|
  {
    if slots != [] && slots[0].Some? {
      var slot := slots[0].value;
      if slot.xuid in members || |members| < MAX_MEMBERS {
        assert members[slot.xuid := slot.closed].Keys == members.Keys + {slot.xuid};
        assert slot.xuid in members ==> members.Keys + {slot.xuid} == members.Keys;
        JoinedFits(members[slot.xuid := slot.closed], slots[1..]);
      }
    }
  }

  /** An accepted JOIN leaves each slot as its last word says, and refuses nothing else. */
  lemma {:induction false} JoinedAll(members: map<int, bool>, slots: seq<Option<Slot>>, k: nat)
    requires Joined(members, slots).1 && k < |slots|
    requires forall j | k < j < |slots| ::
      slots[j].Some? ==> slots[k].Some? ==> slots[j].value.xuid != slots[k].value.xuid
    ensures slots[k].Some? && slots[k].value.xuid in Joined(members, slots).0
    ensures Joined(members, slots).0[slots[k].value.xuid] == slots[k].value.closed
    decreases |slots|
  {
    var next := members[slots[0].value.xuid := slots[0].value.closed];
    if k == 0 {
      JoinedOthers(next, slots[1..], slots[0].value.xuid);
    } else {
      JoinedAll(next, slots[1..], k - 1);
    }
  }

  lemma {:induction false} JoinedOthers(members: map<int, bool>, slots: seq<Option<Slot>>, xuid: int)
    requires forall j | 0 <= j < |slots| :: slots[j].Some? ==> slots[j].value.xuid != xuid
    ensures xuid in Joined(members, slots).0 <==> xuid in members
    ensures xuid in members ==> Joined(members, slots).0[xuid] == members[xuid]
    decreases |slots|
  {
    if slots != [] && slots[0].Some? {
      JoinedOthers(members[slots[0].value.xuid := slots[0].value.closed], slots[1..], xuid);
    }
  }

  /** The word JOIN stops at, when the members are these. */
  predicate RefusesAt(members: map<int, bool>, slots: seq<Option<Slot>>, k: nat) {
    && k < |slots|
    && match slots[k]
      case None => true
      case Some(slot) => slot.xuid !in members && |members| >= MAX_MEMBERS
  }

  predicate Names(slots: seq<Option<Slot>>, j: nat, xuid: int) {
    j < |slots| && slots[j].Some? && slots[j].value.xuid == xuid
  }

  /** The last of the first k words that names the member. */
  predicate IsLastWord(slots: seq<Option<Slot>>, k: nat, xuid: int, j: nat) {
    j < k && Names(slots, j, xuid) && forall i: nat | j < i < k :: !Names(slots, i, xuid)
  }

  /** Every word before the refused one names a member, and the last to name one says what
      the member already is. */
  ghost predicate KeepsAt(members: map<int, bool>, slots: seq<Option<Slot>>, k: nat) {
    && RefusesAt(members, slots, k)
    && (forall j: nat | j < k :: slots[j].Some? && slots[j].value.xuid in members)
    && forall j: nat, xuid | IsLastWord(slots, k, xuid, j) :: slots[j].value.closed == members[xuid]
  }

  /** A JOIN is refused and leaves the members as they were exactly when some word is unreadable
      or new past the limit and the words before it only repeat, each member's last, what is so. */
  lemma RefusedJoinKeepsAll(members: map<int, bool>, slots: seq<Option<Slot>>)
    ensures Joined(members, slots) == (members, false) <==> exists k: nat :: KeepsAt(members, slots, k)
  {
    hide Joined, KeepsAt, Restores;
    RefusedJoinRestores(members, members, slots);
    forall k: nat ensures Restores(members, members, slots, k) <==> KeepsAt(members, slots, k) {
      RestoresItself(members, slots, k);
    }
  }

  /** From these members on, the JOIN stops at k with the members it began with. */
  ghost predicate Restores(began: map<int, bool>, members: map<int, bool>, slots: seq<Option<Slot>>, k: nat) {
    && RefusesAt(members, slots, k)
    && (forall j: nat | j < k :: slots[j].Some? && slots[j].value.xuid in members)
    && forall xuid | xuid in members :: RestoresOne(began, members, slots, k, xuid)
  }

  ghost predicate RestoresOne(began: map<int, bool>, members: map<int, bool>, slots: seq<Option<Slot>>, k: nat,
      xuid: int)
    requires k <= |slots| && xuid in members
  {
    && xuid in began
    && (forall j: nat | IsLastWord(slots, k, xuid, j) :: slots[j].value.closed == began[xuid])
    && ((forall j: nat | j < k :: !Names(slots, j, xuid)) ==> members[xuid] == began[xuid])
  }

  lemma {:induction false} RefusedJoinRestores(began: map<int, bool>, members: map<int, bool>, slots: seq<Option<Slot>>)
    requires began.Keys == members.Keys
    ensures Joined(members, slots) == (began, false) <==> exists k: nat :: Restores(began, members, slots, k)
    decreases |slots|
  {
    if slots != [] && !RefusesAt(members, slots, 0) {
      var slot := slots[0].value;
      var next := members[slot.xuid := slot.closed];
      if slot.xuid in members {
        assert next.Keys == members.Keys;
        RefusedJoinRestores(began, next, slots[1..]);
        RestoresLater(began, members, slots);
      } else {
        JoinedKeeps(next, slots[1..]);
        assert slot.xuid in Joined(members, slots).0;
      }
    } else if slots != [] {
      RestoresNow(began, members, slots);
    }
  }

  lemma RestoresNow(began: map<int, bool>, members: map<int, bool>, slots: seq<Option<Slot>>)
    requires began.Keys == members.Keys && RefusesAt(members, slots, 0)
    ensures (exists k: nat :: Restores(began, members, slots, k)) <==> began == members
  {
    if k: nat :| Restores(began, members, slots, k) {
      assert k == 0;
      forall xuid | xuid in members ensures members[xuid] == began[xuid] {
        assert RestoresOne(began, members, slots, 0, xuid);
      }
    }
    if began == members {
      assert Restores(began, members, slots, 0);
    }
  }

  lemma RestoresLater(began: map<int, bool>, members: map<int, bool>, slots: seq<Option<Slot>>)
    requires began.Keys == members.Keys && slots != [] && slots[0].Some? && slots[0].value.xuid in members
    ensures var next := members[slots[0].value.xuid := slots[0].value.closed];
      (exists k: nat :: Restores(began, members, slots, k)) <==> exists k: nat :: Restores(began, next, slots[1..], k)
  {
    var next := members[slots[0].value.xuid := slots[0].value.closed];
    if k: nat :| Restores(began, members, slots, k) {
      assert k > 0;
      RestoresShifted(began, members, slots, k);
      assert Restores(began, next, slots[1..], k - 1);
    }
    if k: nat :| Restores(began, next, slots[1..], k) {
      RestoresShifted(began, members, slots, k + 1);
      assert Restores(began, members, slots, k + 1);
    }
  }

  lemma RestoresShifted(began: map<int, bool>, members: map<int, bool>, slots: seq<Option<Slot>>, k: nat)
    requires began.Keys == members.Keys && slots != [] && slots[0].Some? && slots[0].value.xuid in members && k > 0
    ensures var next := members[slots[0].value.xuid := slots[0].value.closed];
      Restores(began, members, slots, k) <==> Restores(began, next, slots[1..], k - 1)
  {
    var next, rest := members[slots[0].value.xuid := slots[0].value.closed], slots[1..];
    assert next.Keys == members.Keys;
    assert |next| == |next.Keys| && |members| == |members.Keys|;
    assert RefusesAt(members, slots, k) <==> RefusesAt(next, rest, k - 1);
    if k <= |slots| {
      forall xuid | xuid in members
        ensures RestoresOne(began, members, slots, k, xuid) <==> RestoresOne(began, next, rest, k - 1, xuid)
      {
        OneShifted(began, members, slots, k, xuid);
      }
      assert forall j: nat | j < k - 1 :: rest[j] == slots[j + 1];
      assert forall j: nat | 0 < j < k :: slots[j] == rest[j - 1];
    }
    hide RefusesAt, RestoresOne;
  }

  lemma OneShifted(began: map<int, bool>, members: map<int, bool>, slots: seq<Option<Slot>>, k: nat, xuid: int)
    requires slots != [] && slots[0].Some? && slots[0].value.xuid in members && 0 < k <= |slots| && xuid in members
    ensures var next := members[slots[0].value.xuid := slots[0].value.closed];
      RestoresOne(began, members, slots, k, xuid) <==> RestoresOne(began, next, slots[1..], k - 1, xuid)
  {
    var next, rest := members[slots[0].value.xuid := slots[0].value.closed], slots[1..];
    if RestoresOne(began, members, slots, k, xuid) {
      forall j: nat | IsLastWord(rest, k - 1, xuid, j) ensures rest[j].value.closed == began[xuid] {
        LastShifted(slots, k, xuid, j);
      }
      if forall j: nat | j < k - 1 :: !Names(rest, j, xuid) {
        NoneShifted(slots, k, xuid);
        assert Names(slots, 0, xuid) ==> IsLastWord(slots, k, xuid, 0);
        assert next[xuid] == began[xuid];
      }
    }
    if RestoresOne(began, next, rest, k - 1, xuid) {
      forall j: nat | IsLastWord(slots, k, xuid, j) ensures slots[j].value.closed == began[xuid] {
        if j > 0 {
          LastShifted(slots, k, xuid, j - 1);
        } else {
          NoneShifted(slots, k, xuid);
        }
      }
      if forall j: nat | j < k :: !Names(slots, j, xuid) {
        NoneShifted(slots, k, xuid);
        assert !Names(slots, 0, xuid);
      }
    }
  }

  lemma LastShifted(slots: seq<Option<Slot>>, k: nat, xuid: int, j: nat)
    requires slots != [] && 0 < k <= |slots|
    ensures IsLastWord(slots[1..], k - 1, xuid, j) <==> IsLastWord(slots, k, xuid, j + 1)
  {
    var rest := slots[1..];
    if IsLastWord(rest, k - 1, xuid, j) {
      forall i: nat | j + 1 < i < k ensures !Names(slots, i, xuid) {
        assert !Names(rest, i - 1, xuid);
      }
    }
    if IsLastWord(slots, k, xuid, j + 1) {
      forall i: nat | j < i < k - 1 ensures !Names(rest, i, xuid) {
        assert !Names(slots, i + 1, xuid);
      }
    }
  }

  lemma NoneShifted(slots: seq<Option<Slot>>, k: nat, xuid: int)
    requires slots != [] && 0 < k <= |slots|
    ensures (forall j: nat | j < k - 1 :: !Names(slots[1..], j, xuid)) <==>
      forall j: nat | 0 < j < k :: !Names(slots, j, xuid)
  {
    var rest := slots[1..];
    if forall j: nat | j < k - 1 :: !Names(rest, j, xuid) {
      forall j: nat | 0 < j < k ensures !Names(slots, j, xuid) {
        assert !Names(rest, j - 1, xuid);
      }
    }
    if forall j: nat | 0 < j < k :: !Names(slots, j, xuid) {
      forall j: nat | j < k - 1 ensures !Names(rest, j, xuid) {
        assert !Names(slots, j + 1, xuid);
      }
    }
  }

  lemma RestoresItself(members: map<int, bool>, slots: seq<Option<Slot>>, k: nat)
    ensures Restores(members, members, slots, k) <==> KeepsAt(members, slots, k)
  {
  }

  lemma {:induction false} JoinedKeeps(members: map<int, bool>, slots: seq<Option<Slot>>)
    ensures members.Keys <= Joined(members, slots).0.Keys
    decreases |slots|
  {
    if slots != [] && !RefusesAt(members, slots, 0) {
      JoinedKeeps(members[slots[0].value.xuid := slots[0].value.closed], slots[1..]);
    }
  }

  lemma {:induction false} LeftFits(members: map<int, bool>, xuids: seq<Option<int>>)
    ensures |Left(members, xuids).0| <= |members| && Left(members, xuids).0.Keys <= members.Keys
    ensures Left(members, xuids).1 ==> forall k | 0 <= k < |xuids| ::
      xuids[k].Some? && xuids[k].value !in Left(members, xuids).0
    decreases |xuids|
  {
    if xuids != [] && xuids[0].Some? {
      var rest := members - {xuids[0].value};
      assert rest.Keys == members.Keys - {xuids[0].value};
      LeftFits(rest, xuids[1..]);
    }
  }

  /** A LEAVE that is refused leaves the members as they were exactly when no word before the
      first unreadable one names a member. */
  lemma {:induction false} RefusedLeaveKeepsAll(members: map<int, bool>, xuids: seq<Option<int>>)
    ensures Left(members, xuids) == (members, false) <==> exists k: nat :: NobodyBefore(members, xuids, k)
    decreases |xuids|
  {
    if xuids != [] && xuids[0].Some? {
      var rest := members - {xuids[0].value};
      if xuids[0].value in members {
        LeftFits(rest, xuids[1..]);
        assert xuids[0].value !in Left(rest, xuids[1..]).0;
      } else {
        assert rest == members;
        RefusedLeaveKeepsAll(members, xuids[1..]);
        if k: nat :| NobodyBefore(members, xuids, k) {
          assert NobodyBefore(members, xuids[1..], k - 1);
        }
        if k: nat :| NobodyBefore(members, xuids[1..], k) {
          forall j: nat | j < k + 1 ensures xuids[j].Some? && xuids[j].value !in members {
            assert j > 0 ==> xuids[1..][j - 1] == xuids[j];
          }
          assert NobodyBefore(members, xuids, k + 1);
        }
      }
    } else if xuids != [] {
      assert NobodyBefore(members, xuids, 0);
    }
  }

  ghost predicate NobodyBefore(members: map<int, bool>, xuids: seq<Option<int>>, k: nat) {
    k < |xuids| && xuids[k].None? && forall j: nat | j < k :: xuids[j].Some? && xuids[j].value !in members
  }

  /** LEAVE removes exactly the members its words name before the first unreadable one. */
  lemma {:induction false} LeftAll(members: map<int, bool>, xuids: seq<Option<int>>, k: nat)
    requires k <= |xuids| && (forall j | 0 <= j < k :: xuids[j].Some?) && (k < |xuids| ==> xuids[k].None?)
    ensures Left(members, xuids).1 <==> k == |xuids|
    ensures forall xuid :: xuid in Left(members, xuids).0 <==>
      xuid in members && forall j | 0 <= j < k :: xuids[j].value != xuid
    ensures forall xuid | xuid in Left(members, xuids).0 :: Left(members, xuids).0[xuid] == members[xuid]
    decreases k
  {
    if k > 0 {
      LeftAll(members - {xuids[0].value}, xuids[1..], k - 1);
    }
  }

  /** A JOIN that is refused at its second word keeps the member of its first; one that sets a
      member's slot and sets it back before it is refused leaves all as it was. */
  lemma RefusedJoinKeeps()
    ensures Joined(map[], [Some(Slot(1, false)), None]) == (map[1 := false], false)
    ensures Joined(map[1 := false], [Some(Slot(1, true)), Some(Slot(1, false)), None]) == (map[1 := false], false)
  {
    var one, back := [Some(Slot(1, false)), None], [Some(Slot(1, true)), Some(Slot(1, false)), None];
    assert one[1..] == [None] && back[1..] == one;
    assert Joined(map[1 := false], one[1..]) == (map[1 := false], false);
    assert map[1 := true][1 := false] == map[1 := false] && map[1 := false][1 := true] == map[1 := true];
    assert Joined(map[1 := true], one) == (map[1 := false], false);
  }
}
