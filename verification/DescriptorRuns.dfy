/** Whole uses of a descriptor cache: any sequence of view changes, draws and resets. */
module DescriptorRuns {
  import opened Options
  import opened DescriptorCache

  /** What happens to a ring: a texture index gets another view, a draw asks for its texture set
      or its sampler set, with a set of the pool to make it in, or the pools are reset. */
  datatype Use<S> =
    | Changed(index: nat, view: View)
    | Drawing(key: Key, given: S)
    | Sampling(key: Key, given: S)
    | Resetting

  /** The set a draw got, and whether it was made for it. */
  datatype Bound<S> = Bound(got: Option<S>, made: bool)

  function ViewsAfter<S>(views: seq<View>, uses: seq<Use<S>>): (after: seq<View>)
    ensures |after| == |views|
  {
    if uses == [] then views
    else
      var before, last := ViewsAfter(views, uses[..|uses| - 1]), uses[|uses| - 1];
      if last.Changed? && last.index < |views| then before[last.index := last.view] else before
  }

  predicate Draws<S(==)>(u: Use<S>, key: Key) {
    u.Drawing? && u.key == key
  }

  predicate Samples<S(==)>(u: Use<S>, key: Key) {
    u.Sampling? && u.key == key
  }

  predicate Touches<S(==)>(u: Use<S>, size: nat, key: Key) {
    u.Changed? && u.index < size && u.index in key
  }

  /** The last draw with the key before i, when the pools were not reset since. */
  ghost predicate LastDraw<S>(uses: seq<Use<S>>, i: nat, key: Key, j: nat) {
    j < i <= |uses| && Draws(uses[j], key) && forall k | j < k < i :: !Draws(uses[k], key) && !uses[k].Resetting?
  }

  ghost predicate LastSample<S>(uses: seq<Use<S>>, i: nat, key: Key, j: nat) {
    j < i <= |uses| && Samples(uses[j], key) && forall k | j < k < i :: !Samples(uses[k], key) && !uses[k].Resetting?
  }

  /** An index of the key got another view between two uses. */
  ghost predicate TouchedSince<S>(uses: seq<Use<S>>, size: nat, key: Key, j: nat, i: nat)
    requires i <= |uses|
  {
    exists k :: j < k < i && Touches(uses[k], size, key)
  }

  ghost predicate ResetSince<S>(uses: seq<Use<S>>, j: nat, i: nat)
    requires i <= |uses|
  {
    exists k :: j < k < i && uses[k].Resetting?
  }

  /** The pool gives no set twice between two resets. */
  ghost predicate Apart<S(!new)>(uses: seq<Use<S>>) {
    forall i, j | 0 <= j < i < |uses| && uses[j].Drawing? && uses[i].Drawing? && !ResetSince(uses, j, i) ::
      uses[i].given != uses[j].given
  }

  /** A draw gets the set of the last draw with its key unless the pools were reset or one of its
      indices got another view since; then a set is made for it. */
  ghost predicate DrawAnswered<S>(uses: seq<Use<S>>, size: nat, bound: seq<Bound<S>>, i: nat)
    requires i < |uses| && i < |bound| && uses[i].Drawing?
  {
    var key := uses[i].key;
    && (bound[i].made <==> forall j: nat | LastDraw(uses, i, key, j) :: TouchedSince(uses, size, key, j, i))
    && (bound[i].made ==> bound[i].got == Some(uses[i].given))
    && (!bound[i].made ==> forall j: nat | LastDraw(uses, i, key, j) :: bound[i].got == bound[j].got)
  }

  /** A sampler set is made once between resets. */
  ghost predicate SampleAnswered<S>(uses: seq<Use<S>>, bound: seq<Bound<S>>, i: nat)
    requires i < |uses| && i < |bound| && uses[i].Sampling?
  {
    var key := uses[i].key;
    && (bound[i].made <==> forall j: nat :: !LastSample(uses, i, key, j))
    && (bound[i].made ==> bound[i].got == Some(uses[i].given))
    && (!bound[i].made ==> forall j: nat | LastSample(uses, i, key, j) :: bound[i].got == bound[j].got)
  }

  ghost predicate Answered<S>(uses: seq<Use<S>>, size: nat, bound: seq<Bound<S>>, i: nat)
    requires i < |uses| && i < |bound|
  {
    && (uses[i].Drawing? ==> DrawAnswered(uses, size, bound, i))
    && (uses[i].Sampling? ==> SampleAnswered(uses, bound, i))
  }

  /** A set holds what its key named when the draw at j asked for it. */
  ghost predicate Holds<S>(views: seq<View>, uses: seq<Use<S>>, bound: seq<Bound<S>>, contents: map<S, Written>, j: nat)
    requires j < |uses| && j < |bound| && uses[j].Drawing?
  {
    && bound[j].got.Some? && bound[j].got.value in contents
    && contents[bound[j].got.value] == Written(uses[j].key, Held(uses[j].key, ViewsAfter(views, uses[..j])))
  }

  /** Every set bound since the last reset still holds what it held for its draw. */
  ghost predicate AllHold<S>(views: seq<View>, uses: seq<Use<S>>, bound: seq<Bound<S>>, contents: map<S, Written>,
      i: nat)
    requires i <= |uses| && i <= |bound|
  {
    forall j: nat | j < i && uses[j].Drawing? && !ResetSince(uses, j, i) :: Holds(views, uses, bound, contents, j)
  }

  // ------------------------------------------------------------ what the cache knows of the uses

  /** The kept set of a key is that of its last draw, and its views changed when the draw's did. */
  ghost predicate KnowsDraw<S(!new)>(h: History, sets: map<Key, TextureEntry<S>>, uses: seq<Use<S>>, size: nat,
      bound: seq<Bound<S>>, i: nat, key: Key)
    requires i <= |uses| && i <= |bound|
  {
    && (key in sets <==> exists j: nat :: LastDraw(uses, i, key, j))
    && forall j: nat | LastDraw(uses, i, key, j) ::
      && sets[key].descriptors == bound[j].got
      && (SomeChanged(h, size, key, sets[key].made) <==> TouchedSince(uses, size, key, j, i))
  }

  ghost predicate KnowsDraws<S(!new)>(h: History, sets: map<Key, TextureEntry<S>>, uses: seq<Use<S>>, size: nat,
      bound: seq<Bound<S>>, i: nat)
    requires i <= |uses| && i <= |bound|
  {
    forall key :: KnowsDraw(h, sets, uses, size, bound, i, key)
  }

  ghost predicate KnowsSamples<S(!new)>(sets: map<Key, Option<S>>, uses: seq<Use<S>>, bound: seq<Bound<S>>, i: nat)
    requires i <= |uses| && i <= |bound|
  {
    forall key ::
      && (key in sets <==> exists j: nat :: LastSample(uses, i, key, j))
      && forall j: nat | LastSample(uses, i, key, j) :: sets[key] == bound[j].got
  }

  /** Only sets given since the last reset were written. */
  ghost predicate GivenOnly<S(!new)>(uses: seq<Use<S>>, contents: map<S, Written>, i: nat)
    requires i <= |uses|
  {
    forall handle | handle in contents ::
      exists j: nat :: j < i && uses[j].Drawing? && uses[j].given == handle && !ResetSince(uses, j, i)
  }

  lemma ViewsNext<S>(views: seq<View>, uses: seq<Use<S>>, i: nat)
    requires i < |uses|
    ensures ViewsAfter(views, uses[..i + 1]) ==
      if uses[i].Changed? && uses[i].index < |views| then ViewsAfter(views, uses[..i])[uses[i].index := uses[i].view]
      else ViewsAfter(views, uses[..i])
  {
    assert uses[..i + 1][..i] == uses[..i];
  }

  lemma DrawNext<S>(uses: seq<Use<S>>, i: nat, key: Key, j: nat)
    requires i < |uses|
    ensures LastDraw(uses, i + 1, key, j) <==>
      if Draws(uses[i], key) then j == i else LastDraw(uses, i, key, j) && !uses[i].Resetting?
  {
  }

  lemma SampleNext<S>(uses: seq<Use<S>>, i: nat, key: Key, j: nat)
    requires i < |uses|
    ensures LastSample(uses, i + 1, key, j) <==>
      if Samples(uses[i], key) then j == i else LastSample(uses, i, key, j) && !uses[i].Resetting?
  {
  }

  lemma TouchedNext<S>(uses: seq<Use<S>>, size: nat, key: Key, j: nat, i: nat)
    requires j < i < |uses|
    ensures TouchedSince(uses, size, key, j, i + 1) <==>
      TouchedSince(uses, size, key, j, i) || Touches(uses[i], size, key)
  {
    if Touches(uses[i], size, key) {
      assert j < i < i + 1 && Touches(uses[i], size, key);
    }
    if TouchedSince(uses, size, key, j, i) {
      var k :| j < k < i && Touches(uses[k], size, key);
      assert j < k < i + 1 && Touches(uses[k], size, key);
    }
  }

  lemma ResetNext<S>(uses: seq<Use<S>>, j: nat, i: nat)
    requires j < i < |uses|
    ensures ResetSince(uses, j, i + 1) <==> ResetSince(uses, j, i) || uses[i].Resetting?
  {
    if uses[i].Resetting? {
      assert j < i < i + 1 && uses[i].Resetting?;
    }
    if ResetSince(uses, j, i) {
      var k :| j < k < i && uses[k].Resetting?;
      assert j < k < i + 1 && uses[k].Resetting?;
    }
  }

  // ------------------------------------------------------------ one use

  /** A use that is no draw with this key leaves what is known of it. */
  lemma DrawKept<S(!new)>(h: History, h': History, sets: map<Key, TextureEntry<S>>, sets': map<Key, TextureEntry<S>>,
      uses: seq<Use<S>>, size: nat, bound: seq<Bound<S>>, b: Bound<S>, i: nat, key: Key)
    requires i < |uses| && i == |bound| && KnowsDraw(h, sets, uses, size, bound, i, key)
    requires !Draws(uses[i], key) && !uses[i].Resetting?
    requires key in sets' <==> key in sets
    requires key in sets ==> sets'[key] == sets[key]
    requires key in sets ==>
      (SomeChanged(h', size, key, sets[key].made) <==>
        SomeChanged(h, size, key, sets[key].made) || Touches(uses[i], size, key))
    ensures KnowsDraw(h', sets', uses, size, bound + [b], i + 1, key)
  {
    hide LastDraw, SomeChanged, TouchedSince, Draws, Touches;
    var next := i + 1;
    forall j: nat ensures LastDraw(uses, next, key, j) <==> LastDraw(uses, i, key, j) {
      DrawNext(uses, i, key, j);
    }
    forall j: nat | LastDraw(uses, i, key, j)
      ensures j < i
      ensures TouchedSince(uses, size, key, j, i + 1) <==>
        TouchedSince(uses, size, key, j, i) || Touches(uses[i], size, key)
    {
      LastDrawBefore(uses, i, key, j);
      TouchedNext(uses, size, key, j, i);
    }
  }

  lemma LastDrawBefore<S>(uses: seq<Use<S>>, i: nat, key: Key, j: nat)
    requires LastDraw(uses, i, key, j)
    ensures j < i
  {
  }

  /** The draw's own key. */
  lemma DrawnNow<S(!new)>(h: History, sets': map<Key, TextureEntry<S>>, uses: seq<Use<S>>, size: nat,
      bound: seq<Bound<S>>, b: Bound<S>, i: nat, key: Key)
    requires i < |uses| && i == |bound| && Draws(uses[i], key)
    requires key in sets' && sets'[key].descriptors == b.got && !SomeChanged(h, size, key, sets'[key].made)
    ensures KnowsDraw(h, sets', uses, size, bound + [b], i + 1, key)
  {
    hide SomeChanged;
    var next := i + 1;
    forall j: nat ensures LastDraw(uses, next, key, j) <==> j == i {
      DrawNext(uses, i, key, j);
    }
    hide LastDraw;
    assert LastDraw(uses, next, key, i);
  }

  lemma SampleKept<S(!new)>(sets: map<Key, Option<S>>, uses: seq<Use<S>>, bound: seq<Bound<S>>, b: Bound<S>, i: nat)
    requires i < |uses| && i == |bound| && KnowsSamples(sets, uses, bound, i)
    requires !uses[i].Sampling? && !uses[i].Resetting?
    ensures KnowsSamples(sets, uses, bound + [b], i + 1)
  {
    hide LastSample;
    var next := i + 1;
    forall key, j: nat ensures LastSample(uses, next, key, j) <==> LastSample(uses, i, key, j)
      ensures LastSample(uses, i, key, j) ==> j < i
    {
      SampleNext(uses, i, key, j);
      SampleBefore(uses, i, key, j);
    }
  }

  lemma SampleBefore<S>(uses: seq<Use<S>>, i: nat, key: Key, j: nat)
    ensures LastSample(uses, i, key, j) ==> j < i
  {
  }

  lemma SampledNow<S(!new)>(sets: map<Key, Option<S>>, sets': map<Key, Option<S>>, uses: seq<Use<S>>,
      bound: seq<Bound<S>>, b: Bound<S>, i: nat)
    requires i < |uses| && i == |bound| && KnowsSamples(sets, uses, bound, i) && uses[i].Sampling?
    requires sets' == sets[uses[i].key := b.got]
    ensures KnowsSamples(sets', uses, bound + [b], i + 1)
  {
    hide LastSample;
    var next := i + 1;
    forall key, j: nat
      ensures LastSample(uses, next, key, j) <==>
        if key == uses[i].key then j == i else LastSample(uses, i, key, j)
      ensures LastSample(uses, i, key, j) ==> j < i
    {
      SampleNext(uses, i, key, j);
      SampleBefore(uses, i, key, j);
    }
    assert LastSample(uses, next, uses[i].key, i);
  }

  lemma Rests<S(!new)>(views: seq<View>, uses: seq<Use<S>>, bound: seq<Bound<S>>, b: Bound<S>,
      contents: map<S, Written>, contents': map<S, Written>, i: nat)
    requires i < |uses| && i == |bound| && !uses[i].Resetting?
    requires AllHold(views, uses, bound, contents, i) && GivenOnly(uses, contents, i)
    requires forall handle | handle in contents :: handle in contents' && contents'[handle] == contents[handle]
    requires forall handle | handle in contents' && handle !in contents :: uses[i].Drawing? && handle == uses[i].given
    requires uses[i].Drawing? ==> Holds(views, uses, bound + [b], contents', i)
    ensures AllHold(views, uses, bound + [b], contents', i + 1) && GivenOnly(uses, contents', i + 1)
  {
    hide *;
    AllHoldOn(views, uses, bound, b, contents, contents', i);
    GivenOn(uses, contents, contents', i);
  }

  lemma AllHoldOn<S(!new)>(views: seq<View>, uses: seq<Use<S>>, bound: seq<Bound<S>>, b: Bound<S>,
      contents: map<S, Written>, contents': map<S, Written>, i: nat)
    requires i < |uses| && i == |bound| && AllHold(views, uses, bound, contents, i)
    requires forall handle | handle in contents :: handle in contents' && contents'[handle] == contents[handle]
    requires uses[i].Drawing? ==> Holds(views, uses, bound + [b], contents', i)
    ensures AllHold(views, uses, bound + [b], contents', i + 1)
  {
    hide ResetSince, Holds;
    forall j: nat | j < i + 1 && uses[j].Drawing? && !ResetSince(uses, j, i + 1)
      ensures Holds(views, uses, bound + [b], contents', j)
    {
      if j < i {
        ResetNext(uses, j, i);
        HoldsOn(views, uses, bound, b, contents, contents', j);
      }
    }
  }

  lemma HoldsOn<S(!new)>(views: seq<View>, uses: seq<Use<S>>, bound: seq<Bound<S>>, b: Bound<S>,
      contents: map<S, Written>, contents': map<S, Written>, j: nat)
    requires j < |uses| && j < |bound| && uses[j].Drawing? && Holds(views, uses, bound, contents, j)
    requires forall handle | handle in contents :: handle in contents' && contents'[handle] == contents[handle]
    ensures Holds(views, uses, bound + [b], contents', j)
  {
    hide Held, ViewsAfter;
  }

  lemma GivenOn<S(!new)>(uses: seq<Use<S>>, contents: map<S, Written>, contents': map<S, Written>, i: nat)
    requires i < |uses| && !uses[i].Resetting? && GivenOnly(uses, contents, i)
    requires forall handle | handle in contents' && handle !in contents :: uses[i].Drawing? && handle == uses[i].given
    ensures GivenOnly(uses, contents', i + 1)
  {
    hide ResetSince;
    var next := i + 1;
    forall handle | handle in contents'
      ensures exists j: nat :: j < next && uses[j].Drawing? && uses[j].given == handle && !ResetSince(uses, j, next)
    {
      if handle in contents {
        var j: nat :| j < i && uses[j].Drawing? && uses[j].given == handle && !ResetSince(uses, j, i);
        ResetNext(uses, j, i);
        assert j < next && uses[j].given == handle && !ResetSince(uses, j, next);
      } else {
        NoneBetween(uses, i);
        assert i < next && uses[i].given == handle && !ResetSince(uses, i, next);
      }
    }
  }

  lemma NoneBetween<S>(uses: seq<Use<S>>, i: nat)
    requires i < |uses|
    ensures !ResetSince(uses, i, i + 1)
  {
  }

  /** The set given for a draw was not written since the last reset. */
  lemma GivenIsNew<S(!new)>(uses: seq<Use<S>>, contents: map<S, Written>, i: nat)
    requires i < |uses| && uses[i].Drawing? && Apart(uses) && GivenOnly(uses, contents, i)
    ensures uses[i].given !in contents
  {
    hide ResetSince;
  }

  lemma EmptyKnows<S(!new)>(h: History, uses: seq<Use<S>>, size: nat, bound: seq<Bound<S>>, i: nat)
    requires i <= |uses| && i == |bound| && (i == 0 || uses[i - 1].Resetting?)
    ensures KnowsDraws<S>(h, map[], uses, size, bound, i) && KnowsSamples<S>(map[], uses, bound, i)
    ensures forall views :: AllHold<S>(views, uses, bound, map[], i)
    ensures GivenOnly<S>(uses, map[], i)
  {
    if i > 0 {
      forall key, j: nat ensures !LastDraw(uses, i, key, j) && !LastSample(uses, i, key, j) {
        DrawNext(uses, i - 1, key, j);
        SampleNext(uses, i - 1, key, j);
      }
      forall j: nat | j < i && uses[j].Drawing? ensures ResetSince(uses, j, i) {
        assert j < i - 1 < i && uses[i - 1].Resetting?;
      }
    }
  }

  /** What is known of the draw's key answers it. */
  lemma AnswersDraw<S(!new)>(h: History, sets: map<Key, TextureEntry<S>>, uses: seq<Use<S>>, size: nat,
      bound: seq<Bound<S>>, b: Bound<S>, i: nat)
    requires i < |uses| && i == |bound| && uses[i].Drawing? && KnowsDraw(h, sets, uses, size, bound, i, uses[i].key)
    requires b.made <==> uses[i].key !in sets || SomeChanged(h, size, uses[i].key, sets[uses[i].key].made)
    requires b.got == if b.made then Some(uses[i].given) else sets[uses[i].key].descriptors
    ensures Answered(uses, size, bound + [b], i)
  {
    hide LastDraw, SomeChanged, TouchedSince;
    forall j: nat | LastDraw(uses, i, uses[i].key, j) ensures j < i {
      LastDrawBefore(uses, i, uses[i].key, j);
    }
  }

  lemma AnswersSample<S(!new)>(sets: map<Key, Option<S>>, uses: seq<Use<S>>, size: nat, bound: seq<Bound<S>>,
      b: Bound<S>, i: nat)
    requires i < |uses| && i == |bound| && uses[i].Sampling? && KnowsSamples(sets, uses, bound, i)
    requires b.made <==> uses[i].key !in sets
    requires b.got == if b.made then Some(uses[i].given) else sets[uses[i].key]
    ensures Answered(uses, size, bound + [b], i)
  {
    hide LastSample;
    forall j: nat | LastSample(uses, i, uses[i].key, j) ensures j < i {
      SampleBefore(uses, i, uses[i].key, j);
    }
  }

  lemma ChangedMore(h: History, h': History, size: nat, index: nat, key: Key, made: nat)
    requires h'.changes == h.changes + [index] && made <= |h.changes| && index < size
    ensures SomeChanged(h', size, key, made) <==> SomeChanged(h, size, key, made) || index in key
  {
    forall i ensures ChangedSince(h', i, made) <==> ChangedSince(h, i, made) || i == index {
      if i == index {
        assert h'.changes[|h.changes|] == i;
      }
      if ChangedSince(h, i, made) {
        var t :| made <= t < |h.changes| && h.changes[t] == i;
        assert h'.changes[t] == i;
      }
      if t :| made <= t < |h'.changes| && h'.changes[t] == i && t < |h.changes| {
        assert h.changes[t] == i;
      }
    }
    hide ChangedSince;
    if index in key {
      var k :| 0 <= k < |key| && key[k] == index;
      assert key[k] < size && ChangedSince(h', key[k], made);
    }
  }

  // ------------------------------------------------------------ every sequence of uses

  ghost predicate Knows<S(!new)>(h: History, sets: map<Key, TextureEntry<S>>, samplers: map<Key, Option<S>>,
      contents: map<S, Written>, uses: seq<Use<S>>, views: seq<View>, bound: seq<Bound<S>>)
    requires |bound| <= |uses|
  {
    var i := |bound|;
    && KnowsDraws(h, sets, uses, |views|, bound, i) && KnowsSamples(samplers, uses, bound, i)
    && AllHold(views, uses, bound, contents, i) && GivenOnly(uses, contents, i)
    && h.was != [] && h.was[|h.was| - 1] == ViewsAfter(views, uses[..i])
  }

  lemma KnowsChanged<S(!new)>(h: History, h': History, sets: map<Key, TextureEntry<S>>, samplers: map<Key, Option<S>>,
      contents: map<S, Written>, uses: seq<Use<S>>, views: seq<View>, bound: seq<Bound<S>>, b: Bound<S>)
    requires |bound| < |uses| && Knows(h, sets, samplers, contents, uses, views, bound) && uses[|bound|].Changed?
    requires forall key | key in sets :: sets[key].made <= |h.changes|
    requires var u := uses[|bound|];
      if u.index < |views| then
        && h'.changes == h.changes + [u.index] && h'.was != []
        && h'.was[|h'.was| - 1] == h.was[|h.was| - 1][u.index := u.view]
      else h' == h
    ensures Knows(h', sets, samplers, contents, uses, views, bound + [b])
  {
    hide KnowsDraw, SomeChanged, AllHold, GivenOnly, KnowsSamples, ViewsAfter;
    var i := |bound|;
    var next := i + 1;
    forall key ensures KnowsDraw(h', sets, uses, |views|, bound + [b], next, key) {
      assert KnowsDraw(h, sets, uses, |views|, bound, i, key);
      if key in sets && uses[i].index < |views| {
        ChangedMore(h, h', |views|, uses[i].index, key, sets[key].made);
      }
      DrawKept(h, h', sets, sets, uses, |views|, bound, b, i, key);
    }
    SampleKept(samplers, uses, bound, b, i);
    Rests(views, uses, bound, b, contents, contents, i);
    ViewsNext(views, uses, i);
  }

  lemma KnowsDrawn<S(!new)>(h: History, sets: map<Key, TextureEntry<S>>, sets': map<Key, TextureEntry<S>>,
      samplers: map<Key, Option<S>>, contents: map<S, Written>, contents': map<S, Written>, uses: seq<Use<S>>,
      views: seq<View>, bound: seq<Bound<S>>, b: Bound<S>)
    requires |bound| < |uses| && Knows(h, sets, samplers, contents, uses, views, bound) && uses[|bound|].Drawing?
    requires var u := uses[|bound|];
      && (forall key | key != u.key :: (key in sets' <==> key in sets) && (key in sets ==> sets'[key] == sets[key]))
      && u.key in sets' && sets'[u.key].descriptors == b.got && b.got.Some?
      && !SomeChanged(h, |views|, u.key, sets'[u.key].made)
      && (forall handle | handle in contents :: handle in contents' && contents'[handle] == contents[handle])
      && (forall handle | handle in contents' && handle !in contents :: handle == u.given)
      && b.got.value in contents'
      && contents'[b.got.value] == Written(u.key, Held(u.key, h.was[|h.was| - 1]))
    ensures Knows(h, sets', samplers, contents', uses, views, bound + [b])
  {
    hide KnowsDraw, SomeChanged, AllHold, GivenOnly, KnowsSamples, ViewsAfter, Held;
    var i := |bound|;
    var next := i + 1;
    forall key ensures KnowsDraw(h, sets', uses, |views|, bound + [b], next, key) {
      assert KnowsDraw(h, sets, uses, |views|, bound, i, key);
      if key == uses[i].key {
        DrawnNow(h, sets', uses, |views|, bound, b, i, key);
      } else {
        DrawKept(h, h, sets, sets', uses, |views|, bound, b, i, key);
      }
    }
    SampleKept(samplers, uses, bound, b, i);
    assert Holds(views, uses, bound + [b], contents', i);
    Rests(views, uses, bound, b, contents, contents', i);
    ViewsNext(views, uses, i);
  }

  lemma KnowsSampled<S(!new)>(h: History, sets: map<Key, TextureEntry<S>>, samplers: map<Key, Option<S>>,
      contents: map<S, Written>, uses: seq<Use<S>>, views: seq<View>, bound: seq<Bound<S>>, b: Bound<S>)
    requires |bound| < |uses| && Knows(h, sets, samplers, contents, uses, views, bound) && uses[|bound|].Sampling?
    ensures Knows(h, sets, samplers[uses[|bound|].key := b.got], contents, uses, views, bound + [b])
  {
    hide KnowsDraw, SomeChanged, AllHold, GivenOnly, KnowsSamples, ViewsAfter;
    var i := |bound|;
    var next := i + 1;
    forall key ensures KnowsDraw(h, sets, uses, |views|, bound + [b], next, key) {
      assert KnowsDraw(h, sets, uses, |views|, bound, i, key);
      DrawKept(h, h, sets, sets, uses, |views|, bound, b, i, key);
    }
    SampledNow(samplers, samplers[uses[i].key := b.got], uses, bound, b, i);
    Rests(views, uses, bound, b, contents, contents, i);
    ViewsNext(views, uses, i);
  }

  lemma KnowsReset<S(!new)>(h: History, sets: map<Key, TextureEntry<S>>, samplers: map<Key, Option<S>>,
      contents: map<S, Written>, uses: seq<Use<S>>, views: seq<View>, bound: seq<Bound<S>>, b: Bound<S>)
    requires |bound| < |uses| && Knows(h, sets, samplers, contents, uses, views, bound) && uses[|bound|].Resetting?
    ensures Knows<S>(h, map[], map[], map[], uses, views, bound + [b])
  {
    hide KnowsDraws, AllHold, GivenOnly, KnowsSamples, ViewsAfter;
    EmptyKnows(h, uses, |views|, bound + [b], |bound| + 1);
    ViewsNext(views, uses, |bound|);
  }

  /** The caches and what is known of them, in step. */
  ghost predicate InStep<S(!new)>(cache: BoundedSetCache<S>, stamps: BoundedTextureStamps, uses: seq<Use<S>>,
      views: seq<View>, bound: seq<Bound<S>>)
    requires |bound| <= |uses|
    reads cache, stamps
  {
    && stamps.Valid() && cache.Valid(stamps.history) && |stamps.stamps| == |views|
    && cache.filled.Keys == cache.textureSets.Keys
    && Knows(stamps.history, cache.textureSets, cache.samplerSets, cache.contents, uses, views, bound)
  }

  method Change<S(==, !new)>(cache: BoundedSetCache<S>, stamps: BoundedTextureStamps, uses: seq<Use<S>>,
      ghost views: seq<View>, bound: seq<Bound<S>>) returns (b: Bound<S>)
    requires |bound| < |uses| && uses[|bound|].Changed? && InStep(cache, stamps, uses, views, bound)
    modifies stamps
    ensures InStep(cache, stamps, uses, views, bound + [b]) && Answered(uses, |views|, bound + [b], |bound|)
  {
    hide Knows, Sound, Follows, IsLast, Held, ViewsAfter;
    ghost var h := stamps.history;
    MadeBefore(cache, stamps);
    stamps.Touch(uses[|bound|].index, uses[|bound|].view);
    b := Bound(None, false);
    StillValid(cache, h, stamps.history);
    TimesOf(stamps.history, |stamps.stamps|);
    KnowsChanged(h, stamps.history, cache.textureSets, cache.samplerSets, cache.contents, uses, views, bound, b);
  }

  lemma MadeBefore<S(!new)>(cache: BoundedSetCache<S>, stamps: BoundedTextureStamps)
    requires stamps.Valid() && cache.Valid(stamps.history)
    ensures forall key | key in cache.textureSets :: cache.textureSets[key].made <= |stamps.history.changes|
    ensures |stamps.history.was| == |stamps.history.changes| + 1 && stamps.clock == |stamps.history.changes|
  {
    hide IsLast, Kept;
  }

  method Draw<S(==, !new)>(cache: BoundedSetCache<S>, stamps: BoundedTextureStamps, uses: seq<Use<S>>,
      ghost views: seq<View>, bound: seq<Bound<S>>) returns (b: Bound<S>)
    requires |bound| < |uses| && uses[|bound|].Drawing? && InStep(cache, stamps, uses, views, bound) && Apart(uses)
    modifies cache
    ensures InStep(cache, stamps, uses, views, bound + [b]) && Answered(uses, |views|, bound + [b], |bound|)
  {
    hide Knows, Sound, Follows, IsLast, Held, ViewsAfter, Apart, SomeChanged, Answered;
    hide KnowsDraw, KnowsSamples, GivenOnly;
    var u := uses[|bound|];
    ghost var sets, contents := cache.textureSets, cache.contents;
    KnowsParts(stamps.history, sets, cache.samplerSets, contents, uses, views, bound, u.key);
    GivenIsNew(uses, contents, |bound|);
    MadeBefore(cache, stamps);
    var found, make := cache.Textures(u.key, stamps);
    if make {
      cache.PutTextures(u.key, u.given, stamps);
      b := Bound(Some(u.given), true);
      NothingSince(stamps.history, |views|, u.key);
    } else {
      b := Bound(found, false);
    }
    AnswersDraw(stamps.history, sets, uses, |views|, bound, b, |bound|);
    KnowsDrawn(stamps.history, sets, cache.textureSets, cache.samplerSets, contents, cache.contents, uses, views,
               bound, b);
  }

  lemma KnowsParts<S(!new)>(h: History, sets: map<Key, TextureEntry<S>>, samplers: map<Key, Option<S>>,
      contents: map<S, Written>, uses: seq<Use<S>>, views: seq<View>, bound: seq<Bound<S>>, key: Key)
    requires |bound| < |uses| && Knows(h, sets, samplers, contents, uses, views, bound)
    ensures KnowsDraw(h, sets, uses, |views|, bound, |bound|, key) && KnowsSamples(samplers, uses, bound, |bound|)
    ensures GivenOnly(uses, contents, |bound|)
  {
    hide KnowsDraw, KnowsSamples, AllHold, GivenOnly;
  }

  lemma NothingSince(h: History, size: nat, key: Key)
    ensures !SomeChanged(h, size, key, |h.changes|)
  {
  }

  method Sample<S(==, !new)>(cache: BoundedSetCache<S>, stamps: BoundedTextureStamps, uses: seq<Use<S>>,
      ghost views: seq<View>, bound: seq<Bound<S>>) returns (b: Bound<S>)
    requires |bound| < |uses| && uses[|bound|].Sampling? && InStep(cache, stamps, uses, views, bound)
    modifies cache
    ensures InStep(cache, stamps, uses, views, bound + [b]) && Answered(uses, |views|, bound + [b], |bound|)
  {
    hide Knows, Sound, Follows, IsLast, Held, ViewsAfter, Answered;
    var u := uses[|bound|];
    ghost var samplers := cache.samplerSets;
    KnowsParts(stamps.history, cache.textureSets, samplers, cache.contents, uses, views, bound, u.key);
    var found, make := cache.Samplers(u.key);
    if make {
      cache.PutSamplers(u.key, u.given);
      b := Bound(Some(u.given), true);
    } else {
      b := Bound(found, false);
    }
    AnswersSample(samplers, uses, |views|, bound, b, |bound|);
    KnowsSampled(stamps.history, cache.textureSets, samplers, cache.contents, uses, views, bound, b);
    assert cache.samplerSets == samplers[u.key := b.got];
  }

  method Reset<S(==, !new)>(cache: BoundedSetCache<S>, stamps: BoundedTextureStamps, uses: seq<Use<S>>,
      ghost views: seq<View>, bound: seq<Bound<S>>) returns (b: Bound<S>)
    requires |bound| < |uses| && uses[|bound|].Resetting? && InStep(cache, stamps, uses, views, bound)
    modifies cache
    ensures InStep(cache, stamps, uses, views, bound + [b]) && Answered(uses, |views|, bound + [b], |bound|)
  {
    hide Knows, Sound, Follows, IsLast, Held, ViewsAfter;
    KnowsReset(stamps.history, cache.textureSets, cache.samplerSets, cache.contents, uses, views, bound,
               Bound(None, false));
    cache.Clear();
    b := Bound(None, false);
  }

  method One<S(==, !new)>(cache: BoundedSetCache<S>, stamps: BoundedTextureStamps, uses: seq<Use<S>>,
      ghost views: seq<View>, bound: seq<Bound<S>>) returns (b: Bound<S>)
    requires |bound| < |uses| && InStep(cache, stamps, uses, views, bound) && Apart(uses)
    modifies cache, stamps
    ensures InStep(cache, stamps, uses, views, bound + [b]) && Answered(uses, |views|, bound + [b], |bound|)
  {
    hide *;
    match uses[|bound|] {
    case Changed(_, _) => b := Change(cache, stamps, uses, views, bound);
    case Drawing(_, _) => b := Draw(cache, stamps, uses, views, bound);
    case Sampling(_, _) => b := Sample(cache, stamps, uses, views, bound);
    case Resetting => b := Reset(cache, stamps, uses, views, bound);
    }
  }

  ghost predicate AllAnswered<S>(uses: seq<Use<S>>, size: nat, bound: seq<Bound<S>>) {
    |bound| <= |uses| && forall i: nat | i < |bound| :: Answered(uses, size, bound, i)
  }

  /** At every moment every set bound since the last reset held what its key named for its draw. */
  ghost predicate AlwaysHeld<S>(views: seq<View>, uses: seq<Use<S>>, bound: seq<Bound<S>>, was: seq<map<S, Written>>) {
    && |was| == |bound| + 1 <= |uses| + 1
    && forall i: nat | i <= |bound| :: AllHold(views, uses, bound, was[i], i)
  }

  /** Under every sequence of uses each draw gets the set of the last draw with its key, unless a
      view of the key changed or the pools were reset since, and the set holds at every moment
      until the next reset what the key named when the draw asked for it. */
  method Serve<S(==, !new)>(cache: BoundedSetCache<S>, stamps: BoundedTextureStamps, uses: seq<Use<S>>)
      returns (bound: seq<Bound<S>>, ghost was: seq<map<S, Written>>)
    requires stamps.Valid() && cache.Valid(stamps.history) && Apart(uses)
    requires cache.textureSets == map[] && cache.samplerSets == map[] && cache.contents == map[]
    modifies cache, stamps
    ensures stamps.Valid() && stamps.Views() == ViewsAfter(old(stamps.Views()), uses)
    ensures |bound| == |uses| && AllAnswered(uses, |old(stamps.stamps)|, bound)
    ensures AlwaysHeld(old(stamps.Views()), uses, bound, was) && was[|uses|] == cache.contents
    ensures cache.Valid(stamps.history) && cache.filled.Keys == cache.textureSets.Keys
  {
    ghost var views := stamps.Views();
    bound, was := [], [cache.contents];
    StartsInStep(cache, stamps, uses);
    hide *;
    while |bound| < |uses|
      invariant |bound| <= |uses| && InStep(cache, stamps, uses, views, bound)
      invariant AllAnswered(uses, |views|, bound)
      invariant |was| == |bound| + 1 && AlwaysHeld(views, uses, bound, was) && was[|bound|] == cache.contents
    {
      var b := One(cache, stamps, uses, views, bound);
      InStepHas(cache, stamps, uses, views, bound + [b]);
      AnsweredMore(uses, |views|, bound, b);
      HeldMore(views, uses, bound, b, was, cache.contents);
      bound := bound + [b];
      was := was + [cache.contents];
    }
    InStepHas(cache, stamps, uses, views, bound);
    assert uses[..|uses|] == uses;
  }

  lemma AnsweredMore<S(!new)>(uses: seq<Use<S>>, size: nat, bound: seq<Bound<S>>, b: Bound<S>)
    requires |bound| < |uses| && AllAnswered(uses, size, bound) && Answered(uses, size, bound + [b], |bound|)
    ensures AllAnswered(uses, size, bound + [b])
  {
    hide Answered;
    forall k: nat | k < |bound| ensures Answered(uses, size, bound + [b], k) {
      StillAnswered(uses, size, bound, b, k);
    }
  }

  lemma HeldMore<S(!new)>(views: seq<View>, uses: seq<Use<S>>, bound: seq<Bound<S>>, b: Bound<S>,
      was: seq<map<S, Written>>, contents: map<S, Written>)
    requires |bound| < |uses| && AlwaysHeld(views, uses, bound, was)
    requires AllHold(views, uses, bound + [b], contents, |bound| + 1)
    ensures AlwaysHeld(views, uses, bound + [b], was + [contents])
  {
    hide AllHold;
    forall k: nat | k <= |bound| ensures AllHold(views, uses, bound + [b], was[k], k) {
      StillAllHold(views, uses, bound, b, was[k], k);
    }
  }

  lemma StartsInStep<S(!new)>(cache: BoundedSetCache<S>, stamps: BoundedTextureStamps, uses: seq<Use<S>>)
    requires stamps.Valid() && cache.Valid(stamps.history)
    requires cache.textureSets == map[] && cache.samplerSets == map[] && cache.contents == map[]
    ensures InStep(cache, stamps, uses, stamps.Views(), []) && |stamps.Views()| == |stamps.stamps|
    ensures AllAnswered<S>(uses, |stamps.stamps|, []) && AlwaysHeld(stamps.Views(), uses, [], [cache.contents])
  {
    hide KnowsDraws, KnowsSamples, IsLast, Kept;
    EmptyKnows<S>(stamps.history, uses, |stamps.stamps|, [], 0);
  }

  lemma InStepHas<S(!new)>(cache: BoundedSetCache<S>, stamps: BoundedTextureStamps, uses: seq<Use<S>>,
      views: seq<View>, bound: seq<Bound<S>>)
    requires |bound| <= |uses| && InStep(cache, stamps, uses, views, bound)
    ensures stamps.Valid() && cache.Valid(stamps.history) && cache.filled.Keys == cache.textureSets.Keys
    ensures stamps.Views() == ViewsAfter(views, uses[..|bound|])
    ensures AllHold(views, uses, bound, cache.contents, |bound|)
  {
    hide KnowsDraws, KnowsSamples, IsLast, Kept, AllHold, Sound;
  }

  lemma StillAnswered<S(!new)>(uses: seq<Use<S>>, size: nat, bound: seq<Bound<S>>, b: Bound<S>, k: nat)
    requires k < |bound| <= |uses| && Answered(uses, size, bound, k)
    ensures Answered(uses, size, bound + [b], k)
  {
    hide LastDraw, LastSample, TouchedSince;
    forall key, j: nat | LastDraw(uses, k, key, j) ensures j < k {
      LastDrawBefore(uses, k, key, j);
    }
    forall key, j: nat | LastSample(uses, k, key, j) ensures j < k {
      SampleBefore(uses, k, key, j);
    }
  }

  lemma StillAllHold<S(!new)>(views: seq<View>, uses: seq<Use<S>>, bound: seq<Bound<S>>, b: Bound<S>,
      contents: map<S, Written>, k: nat)
    requires k <= |bound| <= |uses| && AllHold(views, uses, bound, contents, k)
    ensures AllHold(views, uses, bound + [b], contents, k)
  {
    hide Holds, ResetSince;
    forall j: nat | j < k && uses[j].Drawing? && !ResetSince(uses, j, k)
      ensures Holds(views, uses, bound + [b], contents, j)
    {
      HoldsOn(views, uses, bound, b, contents, contents, j);
    }
  }
}
