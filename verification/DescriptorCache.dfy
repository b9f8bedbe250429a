/** Bounded descriptor sets (src/bounded_descriptor_cache.h): the stamps of texture indices,
    and the cache of sets that are written once and found again while their views stay. */
module DescriptorCache {
  import opened Options

  /** The handle of a view. */
  type View = nat

  /** The indices of one set. */
  type Key = seq<nat>

  /** What a set written for a key holds: the view of each index, nothing beyond the table. */
  function Held(key: Key, views: seq<View>): (held: seq<Option<View>>)
    ensures |held| == |key|
  {
    seq(|key|, k requires 0 <= k < |key| => if key[k] < |views| then Some(views[key[k]]) else None)
  }

  // ------------------------------------------------------------ the history of the views

  /** The views after each change, and the index of each change. */
  datatype History = History(was: seq<seq<View>>, changes: seq<nat>)

  ghost predicate Follows(h: History, size: nat) {
    && |h.was| == |h.changes| + 1
    && (forall t | 0 <= t < |h.was| :: |h.was[t]| == size)
    && (forall t | 0 <= t < |h.changes| :: h.changes[t] < size && Steps(h, t))
  }

  /** One change leaves the views of all other indices. */
  ghost predicate Steps(h: History, t: nat)
    requires t < |h.changes| && |h.was| == |h.changes| + 1
  {
    |h.was[t]| == |h.was[t + 1]| && forall i | 0 <= i < |h.was[t]| && i != h.changes[t] ::
      h.was[t + 1][i] == h.was[t][i]
  }

  ghost predicate ChangedSince(h: History, i: nat, made: nat) {
    exists t :: made <= t < |h.changes| && h.changes[t] == i
  }

  /** Some index of the key got another view. */
  ghost predicate SomeChanged(h: History, size: nat, key: Key, made: nat) {
    exists k :: 0 <= k < |key| && key[k] < size && ChangedSince(h, key[k], made)
  }

  ghost predicate Later(h: History, h': History) {
    h.was <= h'.was && h.changes <= h'.changes
  }

  lemma {:induction false} UnchangedView(h: History, size: nat, i: nat, made: nat, now: nat)
    requires Follows(h, size) && made <= now < |h.was| && i < size
    requires forall t | made <= t < now :: h.changes[t] != i
    ensures h.was[now][i] == h.was[made][i]
    decreases now
  {
    if made < now {
      UnchangedView(h, size, i, made, now - 1);
      assert Steps(h, now - 1);
    }
  }

  /** A set still holds what its indices name when none of them changed since. */
  lemma UnchangedHeld(h: History, size: nat, key: Key, made: nat, filled: nat)
    requires Follows(h, size) && made <= filled < |h.was|
    requires forall k | 0 <= k < |key| && key[k] < size :: !ChangedSince(h, key[k], made)
    ensures Held(key, h.was[filled]) == Held(key, h.was[|h.was| - 1])
    ensures forall k | 0 <= k < |key| ::
      Held(key, h.was[filled])[k] == if key[k] < size then Some(h.was[|h.was| - 1][key[k]]) else None
  {
    forall k | 0 <= k < |key| && key[k] < size ensures h.was[filled][key[k]] == h.was[|h.was| - 1][key[k]] {
      forall t | filled <= t < |h.was| - 1 ensures h.changes[t] != key[k] {
        assert !ChangedSince(h, key[k], made);
      }
      UnchangedView(h, size, key[k], filled, |h.was| - 1);
    }
  }

  // ------------------------------------------------------------ the stamps

  class BoundedTextureStamps {
    var stamps: seq<nat>
    var clock: nat
    ghost var history: History

    /** The clock counts the changes, and each stamp is the time of the last change of its index. */
    ghost predicate Valid()
      reads this
    {
      && Follows(history, |stamps|) && clock == |history.changes|
      && forall i | 0 <= i < |stamps| :: IsLast(history.changes, i, stamps[i])
    }

    ghost function Views(): seq<View>
      reads this
      requires Valid()
    {
      history.was[clock]
    }

    constructor (indices: nat, ghost views: seq<View>)
      requires |views| == indices
      ensures Valid() && clock == 0 && |stamps| == indices && Views() == views && history == History([views], [])
    {
      stamps := seq(indices, _ => 0);
      clock := 0;
      history := History([views], []);
    }

    /** touch, after the view of an index became another: an index beyond the table has no view. */
    method Touch(index: nat, ghost view: View)
      requires Valid()
      modifies this
      ensures Valid() && |stamps| == |old(stamps)| && Later(old(history), history)
      ensures index < |stamps| ==> clock == old(clock) + 1 && Views() == old(Views())[index := view]
      ensures index < |stamps| ==> history.changes == old(history.changes) + [index]
      ensures index >= |stamps| ==> history == old(history) && clock == old(clock) && stamps == old(stamps)
    {
      if index < |stamps| {
        LastChanges(history.changes, stamps, index);
        clock := clock + 1;
        stamps := stamps[index := clock];
        ghost var was := history;
        history := History(history.was + [history.was[clock - 1][index := view]], history.changes + [index]);
        forall t | 0 <= t < |history.changes| ensures Steps(history, t) {
          if t < |was.changes| {
            assert Steps(was, t);
          }
        }
      }
    }

    /** now. */
    function Now(): nat
      reads this
    {
      clock
    }

    /** unchanged_since: whether none of these indices has another view than at that time. */
    method UnchangedSince(indices: Key, made: nat) returns (same: bool)
      requires Valid()
      ensures same <==> forall k | 0 <= k < |indices| && indices[k] < |stamps| ::
        !ChangedSince(history, indices[k], made)
    {
      for k := 0 to |indices|
        invariant forall j | 0 <= j < k && indices[j] < |stamps| :: !ChangedSince(history, indices[j], made)
      {
        var index := indices[k];
        if index < |stamps| {
          LastSince(history, index, stamps[index], made);
          if stamps[index] > made {
            return false;
          }
        }
      }
      return true;
    }
  }

  /** stamp is one more than the place of the last change of an index, or 0 without one. */
  ghost predicate IsLast(changes: seq<nat>, i: nat, stamp: nat) {
    && stamp <= |changes|
    && (stamp > 0 ==> changes[stamp - 1] == i)
    && forall t | stamp <= t < |changes| :: changes[t] != i
  }

  lemma LastSince(h: History, i: nat, stamp: nat, made: nat)
    requires IsLast(h.changes, i, stamp)
    ensures stamp > made <==> ChangedSince(h, i, made)
  {
    if stamp > made {
      assert h.changes[stamp - 1] == i;
    }
  }

  lemma LastChanges(changes: seq<nat>, stamps: seq<nat>, index: nat)
    requires index < |stamps| && forall i | 0 <= i < |stamps| :: IsLast(changes, i, stamps[i])
    ensures forall i | 0 <= i < |stamps| ::
      IsLast(changes + [index], i, if i == index then |changes| + 1 else stamps[i])
  {
    var more := changes + [index];
    forall i | 0 <= i < |stamps| ensures IsLast(more, i, if i == index then |changes| + 1 else stamps[i]) {
      assert IsLast(changes, i, stamps[i]);
      assert forall t | 0 <= t < |changes| :: more[t] == changes[t];
    }
  }

  // ------------------------------------------------------------ the cache

  const MAX_ABANDONED: nat := 256
  const MAX_KEPT: nat := 2048

  datatype TextureEntry<S> = TextureEntry(descriptors: Option<S>, made: nat)

  /** What is known of a set that was written: for which key, and what it was given. */
  datatype Written = Written(key: Key, held: seq<Option<View>>)

  /** A kept set was written no earlier than it was stamped, for its key, with the views of then. */
  ghost predicate Sound<S(!new)>(h: History, sets: map<Key, TextureEntry<S>>, contents: map<S, Written>,
      filled: map<Key, nat>) {
    && filled.Keys <= sets.Keys
    && (forall key | key in sets :: sets[key].made < |h.was|)
    && (forall key | key in filled :: Kept(h, sets, contents, filled, key))
  }

  ghost predicate Kept<S(!new)>(h: History, sets: map<Key, TextureEntry<S>>, contents: map<S, Written>,
      filled: map<Key, nat>, key: Key)
    requires key in filled && key in sets
  {
    && sets[key].made <= filled[key] < |h.was|
    && sets[key].descriptors.Some? && sets[key].descriptors.value in contents
    && contents[sets[key].descriptors.value] == Written(key, Held(key, h.was[filled[key]]))
  }

  lemma Offered<S(!new)>(h: History, sets: map<Key, TextureEntry<S>>, contents: map<S, Written>, filled: map<Key, nat>,
      key: Key, entry: TextureEntry<S>)
    requires Sound(h, sets, contents, filled) && entry.made < |h.was|
    ensures Sound(h, sets[key := entry], contents, filled - {key})
    ensures key in filled ==> |filled - {key}| == |filled| - 1
    ensures key !in filled ==> filled - {key} == filled
    ensures |sets[key := entry]| == |sets| + if key in sets then 0 else 1
  {
    hide Held, Sound;
    Less(filled, key);
    More(sets, key, entry);
    OfferedSound(h, sets, contents, filled, key, entry);
  }

  lemma OfferedSound<S(!new)>(h: History, sets: map<Key, TextureEntry<S>>, contents: map<S, Written>,
      filled: map<Key, nat>, key: Key, entry: TextureEntry<S>)
    requires Sound(h, sets, contents, filled) && entry.made < |h.was|
    ensures Sound(h, sets[key := entry], contents, filled - {key})
  {
    hide Held;
    forall other | other in filled - {key} ensures Kept(h, sets[key := entry], contents, filled - {key}, other) {
      assert Kept(h, sets, contents, filled, other);
    }
  }

  lemma Less<V>(m: map<Key, V>, key: Key)
    ensures key in m ==> |m - {key}| == |m| - 1
    ensures key !in m ==> m - {key} == m
  {
    assert (m - {key}).Keys == m.Keys - {key};
  }

  lemma More<V>(m: map<Key, V>, key: Key, value: V)
    ensures |m[key := value]| == |m| + if key in m then 0 else 1
  {
    assert m[key := value].Keys == m.Keys + {key};
  }

  lemma TimesOf(h: History, size: nat)
    requires Follows(h, size)
    ensures |h.was| == |h.changes| + 1
  {
  }

  lemma FilledIn<S(!new)>(h: History, sets: map<Key, TextureEntry<S>>, contents: map<S, Written>, filled: map<Key, nat>,
      key: Key, descriptors: S)
    requires Sound(h, sets, contents, filled) && key in sets && key !in filled && descriptors !in contents
      && |h.was| > 0
    ensures Sound(h, sets[key := sets[key].(descriptors := Some(descriptors))],
                  contents[descriptors := Written(key, Held(key, h.was[|h.was| - 1]))], filled[key := |h.was| - 1])
    ensures |contents[descriptors := Written(key, Held(key, h.was[|h.was| - 1]))]| == |contents| + 1
    ensures |filled[key := |h.was| - 1]| == |filled| + 1
    ensures |sets[key := sets[key].(descriptors := Some(descriptors))]| == |sets|
  {
    hide Held;
    var written := Written(key, Held(key, h.was[|h.was| - 1]));
    var sets', contents', filled' := sets[key := sets[key].(descriptors := Some(descriptors))],
      contents[descriptors := written], filled[key := |h.was| - 1];
    forall other | other in filled' ensures Kept(h, sets', contents', filled', other) {
      if other != key {
        assert Kept(h, sets, contents, filled, other);
      }
    }
    assert sets'.Keys == sets.Keys;
  }

  class BoundedSetCache<S(==, !new)> {
    var textureSets: map<Key, TextureEntry<S>>
    var samplerSets: map<Key, Option<S>>
    var abandoned: nat

    // Every texture set written since the pools were last reset, with its contents; the time
    // each kept set was written; the texture sets asked for since then.
    ghost var contents: map<S, Written>
    ghost var filled: map<Key, nat>
    ghost var offers: nat

    ghost predicate Valid(h: History)
      reads this
    {
      Sound(h, textureSets, contents, filled) && offers == |textureSets| + abandoned
        && |contents| == |filled| + abandoned
    }

    constructor ()
      ensures textureSets == map[] && samplerSets == map[] && abandoned == 0
      ensures contents == map[] && filled == map[] && offers == 0
      ensures forall h :: Valid(h)
    {
      textureSets, samplerSets, abandoned := map[], map[], 0;
      contents, filled, offers := map[], map[], 0;
    }

    /** textures: the set of a key when it still holds the current views, else a place for a
        new one. A set must be made exactly when there was none or one of its indices got
        another view since the last was asked for; the old one is abandoned. */
    method Textures(key: Key, stamps: BoundedTextureStamps) returns (found: Option<S>, make: bool)
      requires stamps.Valid() && Valid(stamps.history) && (key in textureSets ==> key in filled)
      modifies this
      ensures Valid(stamps.history) && contents == old(contents) && samplerSets == old(samplerSets)
      ensures make <==>
        key !in old(textureSets) || SomeChanged(stamps.history, |stamps.stamps|, key, old(textureSets)[key].made)
      ensures !make ==>
        && found.Some? && found == old(textureSets)[key].descriptors
        && found.value in contents && contents[found.value] == Written(key, Held(key, stamps.Views()))
        && textureSets == old(textureSets) && abandoned == old(abandoned) && offers == old(offers)
          && filled == old(filled)
      ensures make ==>
        && textureSets == old(textureSets)[key := TextureEntry(found, stamps.clock)] && offers == old(offers) + 1
        && found == (if key in old(textureSets) then old(textureSets)[key].descriptors else None)
        && filled == old(filled) - {key}
        && abandoned == old(abandoned) + if key in old(textureSets) then 1 else 0
    {
      hide Held, Sound, SomeChanged, IsLast, Follows, ChangedSince;
      TimesOf(stamps.history, |stamps.stamps|);
      if key in textureSets {
        var entry := textureSets[key];
        var same := stamps.UnchangedSince(key, entry.made);
        WhetherChanged(stamps.history, |stamps.stamps|, key, entry.made);
        if same {
          KeptSet(stamps.history, |stamps.stamps|, textureSets, contents, filled, key);
          return entry.descriptors, false;
        }
        Offered(stamps.history, textureSets, contents, filled, key, entry.(made := stamps.clock));
        abandoned := abandoned + 1;
        textureSets := textureSets[key := entry.(made := stamps.Now())];
      } else {
        FilledAreSets(stamps.history, textureSets, contents, filled);
        Offered(stamps.history, textureSets, contents, filled, key, TextureEntry(None, stamps.clock));
        textureSets := textureSets[key := TextureEntry(None, stamps.Now())];
      }
      filled := filled - {key};
      offers := offers + 1;
      return textureSets[key].descriptors, true;
    }

    /** The caller writes the views the indices name now into a new set and leaves it in its
        place. A set already written is never written again. */
    method PutTextures(key: Key, descriptors: S, stamps: BoundedTextureStamps)
      requires stamps.Valid() && Valid(stamps.history)
      requires key in textureSets && key !in filled && descriptors !in contents
      modifies `textureSets, `contents, `filled
      ensures Valid(stamps.history) && key in filled
      ensures textureSets == old(textureSets)[key := TextureEntry(Some(descriptors), old(textureSets)[key].made)]
      ensures contents == old(contents)[descriptors := Written(key, Held(key, stamps.Views()))]
      ensures filled == old(filled)[key := stamps.clock]
    {
      hide Held, Sound;
      FilledIn(stamps.history, textureSets, contents, filled, key, descriptors);
      textureSets := textureSets[key := textureSets[key].(descriptors := Some(descriptors))];
      contents := contents[descriptors := Written(key, Held(key, stamps.Views()))];
      filled := filled[key := stamps.clock];
    }

    /** samplers: a set is made once for a key, and found after. */
    method Samplers(key: Key) returns (found: Option<S>, make: bool)
      modifies `samplerSets
      ensures make <==> key !in old(samplerSets)
      ensures samplerSets == if make then old(samplerSets)[key := None] else old(samplerSets)
      ensures key in samplerSets && found == samplerSets[key]
    {
      if key in samplerSets {
        return samplerSets[key], false;
      }
      samplerSets := samplerSets[key := None];
      return None, true;
    }

    /** The caller makes the sampler set and leaves it in its place. */
    method PutSamplers(key: Key, descriptors: S)
      requires key in samplerSets
      modifies `samplerSets
      ensures samplerSets == old(samplerSets)[key := Some(descriptors)]
    {
      samplerSets := samplerSets[key := Some(descriptors)];
    }

    /** crowded: too many sets abandoned, or kept. */
    function Crowded(): bool
      reads this
    {
      abandoned >= MAX_ABANDONED || |textureSets| + |samplerSets| >= MAX_KEPT
    }

    /** clear: the pools were reset. */
    method Clear()
      modifies this
      ensures textureSets == map[] && samplerSets == map[] && abandoned == 0 && contents == map[] && filled == map[]
        && offers == 0
      ensures forall h :: Valid(h)
    {
      textureSets, samplerSets, abandoned := map[], map[], 0;
      contents, filled, offers := map[], map[], 0;
    }
  }

  lemma WhetherChanged(h: History, size: nat, key: Key, made: nat)
    ensures SomeChanged(h, size, key, made) <==> !forall k | 0 <= k < |key| && key[k] < size ::
      !ChangedSince(h, key[k], made)
  {
  }

  lemma FilledAreSets<S(!new)>(h: History, sets: map<Key, TextureEntry<S>>, contents: map<S, Written>,
      filled: map<Key, nat>)
    requires Sound(h, sets, contents, filled)
    ensures filled.Keys <= sets.Keys
  {
  }

  lemma KeptSet<S(!new)>(h: History, size: nat, sets: map<Key, TextureEntry<S>>, contents: map<S, Written>,
      filled: map<Key, nat>, key: Key)
    requires Sound(h, sets, contents, filled) && Follows(h, size) && key in sets && key in filled
    requires !SomeChanged(h, size, key, sets[key].made)
    ensures sets[key].descriptors.Some? && sets[key].descriptors.value in contents
    ensures contents[sets[key].descriptors.value] == Written(key, Held(key, h.was[|h.was| - 1]))
  {
    hide Held;
    assert Kept(h, sets, contents, filled, key);
    UnchangedHeld(h, size, key, sets[key].made, filled[key]);
  }

  /** What the cache keeps stays true while views change. */
  lemma StillValid<S(!new)>(cache: BoundedSetCache<S>, h: History, h': History)
    requires cache.Valid(h) && Later(h, h')
    ensures cache.Valid(h')
  {
    hide Held;
    forall key | key in cache.filled ensures Kept(h', cache.textureSets, cache.contents, cache.filled, key) {
      assert Kept(h, cache.textureSets, cache.contents, cache.filled, key);
    }
  }

  /** No two keys are answered with the same set. */
  lemma SetsApart<S(!new)>(cache: BoundedSetCache<S>, h: History, one: Key, other: Key)
    requires cache.Valid(h) && one in cache.filled && other in cache.filled && one != other
    ensures one in cache.textureSets && other in cache.textureSets
    ensures cache.textureSets[one].descriptors != cache.textureSets[other].descriptors
  {
    assert Kept(h, cache.textureSets, cache.contents, cache.filled, one);
    assert Kept(h, cache.textureSets, cache.contents, cache.filled, other);
  }

  /** When every set asked for was written, the sets written since the pools were reset are
      exactly those kept and those abandoned; so there are not many while the cache is not crowded. */
  lemma SetsConserved<S(!new)>(cache: BoundedSetCache<S>, h: History)
    requires cache.Valid(h) && cache.filled.Keys == cache.textureSets.Keys
    ensures |cache.contents| == |cache.textureSets| + cache.abandoned == cache.offers
    ensures !cache.Crowded() ==> |cache.contents| + |cache.samplerSets| < MAX_KEPT + MAX_ABANDONED - 1
  {
    assert |cache.filled| == |cache.filled.Keys| && |cache.textureSets| == |cache.textureSets.Keys|;
  }
}
