/**
 * `ConstructionHelper`: the construction types read from the models' layers, and the registry of
 * construction-type pairs that decides which bodies are worth intersecting.
 */
module Constructions {
  import opened Common

  /** What the helper reads of a model: `model.layer?.typed?.$id` and `model.layer?.typed?.name`, `None` when null or undefined. */
  datatype LayerInfo = LayerInfo(id: Option<string>, name: Option<string>)

  datatype ConstructionType = ConstructionType(id: string, name: string)

  datatype ConstructionPair = ConstructionPair(first: ConstructionType, second: ConstructionType)

  function Reversed(p: ConstructionPair): ConstructionPair {
    ConstructionPair(p.second, p.first)
  }

  // ---------------------------------------------------------------------------------------------------
  // BuildConstructionTypes

  /** The template string `${id}|${name}` the source deduplicates by. */
  function Key(id: string, name: string): string {
    id + "|" + name
  }

  /** The type a model contributes to `BuildConstructionTypes`: skipped only when the id or the name is null. */
  function Listed(m: LayerInfo): Option<ConstructionType> {
    if m.id.None? || m.name.None? then None else Some(ConstructionType(m.id.value, m.name.value))
  }

  function KeyOf(t: ConstructionType): string {
    Key(t.id, t.name)
  }

  /** The state of the source's loop: the types pushed so far and the keys in `seen`. */
  datatype Scan = Scan(types: seq<ConstructionType>, seen: set<string>)

  /** The loop of `BuildConstructionTypes` over the first `n` models, as written: keyed by the joined string. */
  function ScanByKey(models: seq<LayerInfo>, n: nat): Scan
    requires n <= |models|
  {
    if n == 0 then Scan([], {})
    else
      var s := ScanByKey(models, n - 1);
      match Listed(models[n - 1])
      case None => s
      case Some(t) => if KeyOf(t) in s.seen then s else Scan(s.types + [t], s.seen + {KeyOf(t)})
  }

  /** The list `BuildConstructionTypes` as written leaves in `constructions`, keyed by the joined string. */
  function TypesByKey(models: seq<LayerInfo>): seq<ConstructionType> {
    ScanByKey(models, |models|).types
  }

  /** No type is listed twice. */
  predicate NoDuplicates(ts: seq<ConstructionType>) {
    forall i, j :: 0 <= i < j < |ts| ==> ts[i] != ts[j]
  }

  /** `seen` holds exactly the keys of the listed types. */
  predicate SeenMatches(s: Scan) {
    (forall k :: k in s.seen ==> exists i :: 0 <= i < |s.types| && KeyOf(s.types[i]) == k) &&
    (forall i :: 0 <= i < |s.types| ==> KeyOf(s.types[i]) in s.seen)
  }

  /** The loop as written keeps `seen` equal to the keys of the types it has pushed. */
  lemma {:induction false} SeenIsKeys(models: seq<LayerInfo>, n: nat)
    requires n <= |models|
    ensures SeenMatches(ScanByKey(models, n))
  {
    if n > 0 {
      SeenIsKeys(models, n - 1);
      var s := ScanByKey(models, n - 1);
      var r := ScanByKey(models, n);
      var listed := Listed(models[n - 1]);
      if listed.Some? && KeyOf(listed.value) !in s.seen {
        var t := listed.value;
        assert r == Scan(s.types + [t], s.seen + {KeyOf(t)});
        forall k | k in r.seen
          ensures exists i :: 0 <= i < |r.types| && KeyOf(r.types[i]) == k
        {
          if k != KeyOf(t) {
            var i :| 0 <= i < |s.types| && KeyOf(s.types[i]) == k;
            assert r.types[i] == s.types[i];
          } else {
            assert r.types[|s.types|] == t;
          }
        }
        forall i | 0 <= i < |r.types|
          ensures KeyOf(r.types[i]) in r.seen
        {
          if i < |s.types| {
            assert r.types[i] == s.types[i];
          }
        }
      }
    }
  }

  predicate KeysDistinctIn(ts: seq<ConstructionType>) {
    forall i, j :: 0 <= i < j < |ts| ==> KeyOf(ts[i]) != KeyOf(ts[j])
  }

  /** No key occurs twice in the list as written. */
  lemma {:induction false} KeysDistinct(models: seq<LayerInfo>, n: nat)
    requires n <= |models|
    ensures KeysDistinctIn(ScanByKey(models, n).types)
  {
    if n > 0 {
      KeysDistinct(models, n - 1);
      SeenIsKeys(models, n - 1);
      var s := ScanByKey(models, n - 1);
      var r := ScanByKey(models, n);
      var listed := Listed(models[n - 1]);
      if listed.Some? && KeyOf(listed.value) !in s.seen {
        assert r.types == s.types + [listed.value];
        forall i, j | 0 <= i < j < |r.types|
          ensures KeyOf(r.types[i]) != KeyOf(r.types[j])
        {
          assert r.types[i] == s.types[i];
          if j < |s.types| {
            assert r.types[j] == s.types[j];
          }
        }
      }
    }
  }

  /** Every model that is not skipped has its key seen. */
  lemma {:induction false} ListedKeySeen(models: seq<LayerInfo>, n: nat)
    requires n <= |models|
    ensures forall k :: 0 <= k < n && Listed(models[k]).Some? ==> KeyOf(Listed(models[k]).value) in ScanByKey(models, n).seen
  {
    if n > 0 {
      ListedKeySeen(models, n - 1);
    }
  }

  /** Every type of `ts` is listed by one of the first `n` models. */
  predicate FromModels(models: seq<LayerInfo>, n: nat, ts: seq<ConstructionType>)
    requires n <= |models|
  {
    forall i :: 0 <= i < |ts| ==> exists k :: 0 <= k < n && Listed(models[k]) == Some(ts[i])
  }

  /** Every type the first `n` models list is in `ts`. */
  predicate ListsAll(models: seq<LayerInfo>, n: nat, ts: seq<ConstructionType>)
    requires n <= |models|
  {
    forall k :: 0 <= k < n && Listed(models[k]).Some? ==> Listed(models[k]).value in ts
  }

  /** A type of `ts` comes before another only if an earlier model lists it. */
  predicate FirstSeenOrder(models: seq<LayerInfo>, n: nat, ts: seq<ConstructionType>)
    requires n <= |models|
  {
    forall i, j, kj :: 0 <= i < j < |ts| && 0 <= kj < n && Listed(models[kj]) == Some(ts[j]) ==>
      exists ki :: 0 <= ki < kj && Listed(models[ki]) == Some(ts[i])
  }

  /** Every listed type comes from one of the first `n` models. */
  lemma {:induction false} TypesFromModels(models: seq<LayerInfo>, n: nat)
    requires n <= |models|
    ensures FromModels(models, n, ScanByKey(models, n).types)
  {
    if n > 0 {
      TypesFromModels(models, n - 1);
      var s := ScanByKey(models, n - 1);
      var r := ScanByKey(models, n);
      forall i | 0 <= i < |r.types|
        ensures exists k :: 0 <= k < n && Listed(models[k]) == Some(r.types[i])
      {
        if i < |s.types| {
          assert r.types[i] == s.types[i];
          var k :| 0 <= k < n - 1 && Listed(models[k]) == Some(s.types[i]);
        }
      }
    }
  }

  /** The list as written never holds the same type twice. */
  lemma TypesByKeyNoDuplicates(models: seq<LayerInfo>)
    ensures NoDuplicates(TypesByKey(models))
  {
    KeysDistinct(models, |models|);
  }

  /**
   * The evidently intended list: exactly one entry per distinct `(id, name)` of the models that are not
   * skipped, in first-seen order. Keyed by the pair itself rather than by the joined string.
   */
  function DistinctTypesUpTo(models: seq<LayerInfo>, n: nat): seq<ConstructionType>
    requires n <= |models|
  {
    if n == 0 then []
    else
      var ts := DistinctTypesUpTo(models, n - 1);
      match Listed(models[n - 1])
      case None => ts
      case Some(t) => if t in ts then ts else ts + [t]
  }

  function DistinctTypes(models: seq<LayerInfo>): seq<ConstructionType> {
    DistinctTypesUpTo(models, |models|)
  }

  /** The intended list holds only types that some model among the first `n` lists ... */
  lemma {:induction false} DistinctTypesFromModels(models: seq<LayerInfo>, n: nat)
    requires n <= |models|
    ensures FromModels(models, n, DistinctTypesUpTo(models, n))
  {
    if n > 0 {
      DistinctTypesFromModels(models, n - 1);
      var ts := DistinctTypesUpTo(models, n - 1);
      var r := DistinctTypesUpTo(models, n);
      forall i | 0 <= i < |r|
        ensures exists k :: 0 <= k < n && Listed(models[k]) == Some(r[i])
      {
        if i < |ts| {
          assert r[i] == ts[i];
          var k :| 0 <= k < n - 1 && Listed(models[k]) == Some(ts[i]);
        } else {
          assert Listed(models[n - 1]) == Some(r[i]);
        }
      }
    }
  }

  /** ... and every type they list ... */
  lemma {:induction false} DistinctTypesListsAll(models: seq<LayerInfo>, n: nat)
    requires n <= |models|
    ensures ListsAll(models, n, DistinctTypesUpTo(models, n))
  {
    if n > 0 {
      DistinctTypesListsAll(models, n - 1);
    }
  }

  /** A type missing from the intended list is listed by none of the first `n` models. */
  lemma NotYetListed(models: seq<LayerInfo>, n: nat, t: ConstructionType)
    requires n <= |models| && t !in DistinctTypesUpTo(models, n)
    ensures forall k :: 0 <= k < n ==> Listed(models[k]) != Some(t)
  {
    DistinctTypesListsAll(models, n);
  }

  /** ... never holds the same type twice ... */
  lemma {:induction false} DistinctTypesNoDuplicates(models: seq<LayerInfo>, n: nat)
    requires n <= |models|
    ensures NoDuplicates(DistinctTypesUpTo(models, n))
  {
    if n > 0 {
      DistinctTypesNoDuplicates(models, n - 1);
      var ts := DistinctTypesUpTo(models, n - 1);
      var r := DistinctTypesUpTo(models, n);
      var listed := Listed(models[n - 1]);
      if listed.Some? && listed.value !in ts {
        assert r == ts + [listed.value];
        forall i, j | 0 <= i < j < |r|
          ensures r[i] != r[j]
        {
          assert r[i] == ts[i];
          if j < |ts| {
            assert r[j] == ts[j];
          }
        }
      }
    }
  }

  /** ... and puts a type earlier when it is listed first by an earlier model. */
  lemma {:induction false} DistinctTypesFirstSeenOrder(models: seq<LayerInfo>, n: nat)
    requires n <= |models|
    ensures FirstSeenOrder(models, n, DistinctTypesUpTo(models, n))
  {
    if n > 0 {
      DistinctTypesFirstSeenOrder(models, n - 1);
      DistinctTypesFromModels(models, n - 1);
      var ts := DistinctTypesUpTo(models, n - 1);
      var listed := Listed(models[n - 1]);
      if listed.Some? && listed.value !in ts {
        NotYetListed(models, n - 1, listed.value);
        FirstSeenOrderAppend(models, n, ts, listed.value);
      } else {
        FirstSeenOrderKeep(models, n, ts);
      }
    }
  }

  /** A type first listed by model `n - 1` goes after everything listed earlier. */
  lemma FirstSeenOrderAppend(models: seq<LayerInfo>, n: nat, ts: seq<ConstructionType>, t: ConstructionType)
    requires 0 < n <= |models| && Listed(models[n - 1]) == Some(t) && t !in ts
    requires forall k :: 0 <= k < n - 1 ==> Listed(models[k]) != Some(t)
    requires FirstSeenOrder(models, n - 1, ts) && FromModels(models, n - 1, ts)
    ensures FirstSeenOrder(models, n, ts + [t])
  {
    var r := ts + [t];
    forall i, j, kj | 0 <= i < j < |r| && 0 <= kj < n && Listed(models[kj]) == Some(r[j])
      ensures exists ki :: 0 <= ki < kj && Listed(models[ki]) == Some(r[i])
    {
      assert r[i] == ts[i];
      if j < |ts| {
        assert r[j] == ts[j];
        if kj == n - 1 {
          assert false;
        }
      } else {
        AppendedComesLast(models, n, ts, t, i, kj);
      }
    }
  }

  lemma AppendedComesLast(models: seq<LayerInfo>, n: nat, ts: seq<ConstructionType>, t: ConstructionType, i: int, kj: int)
    requires 0 < n <= |models| && FromModels(models, n - 1, ts)
    requires forall k :: 0 <= k < n - 1 ==> Listed(models[k]) != Some(t)
    requires 0 <= i < |ts| && 0 <= kj < n && Listed(models[kj]) == Some(t)
    ensures exists ki :: 0 <= ki < kj && Listed(models[ki]) == Some(ts[i])
  {
    var ki :| 0 <= ki < n - 1 && Listed(models[ki]) == Some(ts[i]);
  }

  /** A model whose type is already present, or which is skipped, leaves the order as it was. */
  lemma FirstSeenOrderKeep(models: seq<LayerInfo>, n: nat, ts: seq<ConstructionType>)
    requires 0 < n <= |models|
    requires Listed(models[n - 1]).Some? ==> Listed(models[n - 1]).value in ts
    requires FirstSeenOrder(models, n - 1, ts) && FromModels(models, n - 1, ts)
    ensures FirstSeenOrder(models, n, ts)
  {
    forall i, j, kj | 0 <= i < j < |ts| && 0 <= kj < n && Listed(models[kj]) == Some(ts[j])
      ensures exists ki :: 0 <= ki < kj && Listed(models[ki]) == Some(ts[i])
    {
      if kj == n - 1 {
        var kj' :| 0 <= kj' < n - 1 && Listed(models[kj']) == Some(ts[j]);
        var ki :| 0 <= ki < kj' && Listed(models[ki]) == Some(ts[i]);
      }
    }
  }

  /**
   * The intended `BuildConstructionTypes`: each entry is a distinct type, the entries are exactly the
   * types the models list, and a type listed first by an earlier model comes earlier.
   */
  lemma DistinctTypesExact(models: seq<LayerInfo>)
    ensures var ts := DistinctTypes(models);
            NoDuplicates(ts) && FromModels(models, |models|, ts) && ListsAll(models, |models|, ts) &&
            FirstSeenOrder(models, |models|, ts)
  {
    DistinctTypesNoDuplicates(models, |models|);
    DistinctTypesFromModels(models, |models|);
    DistinctTypesListsAll(models, |models|);
    DistinctTypesFirstSeenOrder(models, |models|);
  }

  /** The characters of `k` before its first `|`. */
  function BeforeBar(k: string): (r: string)
    ensures '|' !in r
  {
    if k == [] || k[0] == '|' then [] else [k[0]] + BeforeBar(k[1..])
  }

  /** With no `|` in the id, the joined key gives the id back. */
  lemma {:induction false} BeforeBarOfKey(id: string, name: string)
    requires '|' !in id
    ensures BeforeBar(Key(id, name)) == id
  {
    if id != [] {
      assert Key(id, name)[1..] == Key(id[1..], name);
      BeforeBarOfKey(id[1..], name);
      assert id == [id[0]] + id[1..];
    }
  }

  /** With no `|` in an id, the joined key tells the pairs apart: the first `|` ends the id. */
  lemma KeyInjective(t: ConstructionType, u: ConstructionType)
    requires '|' !in t.id && '|' !in u.id && KeyOf(t) == KeyOf(u)
    ensures t == u
  {
    BeforeBarOfKey(t.id, t.name);
    BeforeBarOfKey(u.id, u.name);
    assert t.name == KeyOf(t)[|t.id| + 1..];
    assert u.name == KeyOf(u)[|u.id| + 1..];
  }

  /** No model has a `|` in its id. */
  predicate IdsWithoutBar(models: seq<LayerInfo>) {
    forall k :: 0 <= k < |models| && models[k].id.Some? ==> '|' !in models[k].id.value
  }

  /** Without a `|` in any id, the list as written is the intended one. */
  lemma {:induction false} ScanAgreesWithoutBar(models: seq<LayerInfo>, n: nat)
    requires n <= |models| && IdsWithoutBar(models)
    ensures ScanByKey(models, n).types == DistinctTypesUpTo(models, n)
  {
    if n > 0 {
      ScanAgreesWithoutBar(models, n - 1);
      SeenIsKeys(models, n - 1);
      TypesFromModels(models, n - 1);
      var s := ScanByKey(models, n - 1);
      match Listed(models[n - 1])
      case None =>
      case Some(t) =>
        if KeyOf(t) in s.seen {
          var i :| 0 <= i < |s.types| && KeyOf(s.types[i]) == KeyOf(t);
          var k :| 0 <= k < n - 1 && Listed(models[k]) == Some(s.types[i]);
          KeyInjective(s.types[i], t);
        }
    }
  }

  lemma TypesByKeyAgreesWithoutBar(models: seq<LayerInfo>)
    requires IdsWithoutBar(models)
    ensures TypesByKey(models) == DistinctTypes(models)
  {
    ScanAgreesWithoutBar(models, |models|);
  }

  /**
   * As written, the key of `("a|b", "c")` and of `("a", "b|c")` is the same string `a|b|c`, so the
   * second, distinct type is dropped.
   */
  lemma KeyCollisionDropsType()
    ensures var models := [LayerInfo(Some("a|b"), Some("c")), LayerInfo(Some("a"), Some("b|c"))];
            TypesByKey(models) == [ConstructionType("a|b", "c")] &&
            DistinctTypes(models) == [ConstructionType("a|b", "c"), ConstructionType("a", "b|c")]
  {
    var models := [LayerInfo(Some("a|b"), Some("c")), LayerInfo(Some("a"), Some("b|c"))];
    var t1, t2 := ConstructionType("a|b", "c"), ConstructionType("a", "b|c");
    assert KeyOf(t1) == KeyOf(t2) == "a|b|c";
    assert t1 != t2 by {
      assert |t1.id| != |t2.id|;
    }
    assert ScanByKey(models, 1) == Scan([t1], {KeyOf(t1)});
    assert DistinctTypesUpTo(models, 1) == [t1];
  }

  // ---------------------------------------------------------------------------------------------------
  // The pair registry

  /** `isSamePair`: equal in the same or in the opposite orientation. */
  predicate SamePair(p1: ConstructionPair, p2: ConstructionPair) {
    (p1.first == p2.first && p1.second == p2.second) || (p1.first == p2.second && p1.second == p2.first)
  }

  /** `this.constructionPairs.some(existingPair => isSamePair(existingPair, pair))`. */
  predicate HasSamePair(ps: seq<ConstructionPair>, pair: ConstructionPair) {
    exists k :: 0 <= k < |ps| && SamePair(ps[k], pair)
  }

  /** No two registered pairs are the same in either orientation. */
  predicate NoEquivalentPairs(ps: seq<ConstructionPair>) {
    forall i, j :: 0 <= i < j < |ps| ==> !SamePair(ps[i], ps[j])
  }

  /** The registry after `addConstructionPair(pair)`: `pair` is appended unless an equivalent one is present. */
  function AddPair(ps: seq<ConstructionPair>, pair: ConstructionPair): (r: seq<ConstructionPair>)
    ensures HasSamePair(r, pair)
    ensures HasSamePair(ps, pair) ==> r == ps
    ensures !HasSamePair(ps, pair) ==> r == ps + [pair]
  {
    if HasSamePair(ps, pair) then ps
    else
      var r := ps + [pair];
      assert SamePair(r[|ps|], pair);
      r
  }

  /** Adding keeps the registry free of equivalent pairs. */
  lemma AddPairKeepsDistinct(ps: seq<ConstructionPair>, pair: ConstructionPair)
    requires NoEquivalentPairs(ps)
    ensures NoEquivalentPairs(AddPair(ps, pair))
  {
    if !HasSamePair(ps, pair) {
      var r := AddPair(ps, pair);
      forall i, j | 0 <= i < j < |r|
        ensures !SamePair(r[i], r[j])
      {
        if j == |ps| {
          assert r[i] == ps[i];
        }
      }
    }
  }

  /** Adding a pair again, in either orientation, changes nothing. */
  lemma AddPairIdempotent(ps: seq<ConstructionPair>, pair: ConstructionPair)
    ensures AddPair(AddPair(ps, pair), pair) == AddPair(ps, pair)
    ensures AddPair(AddPair(ps, pair), Reversed(pair)) == AddPair(ps, pair)
  {
    var r := AddPair(ps, pair);
    var k :| 0 <= k < |r| && SamePair(r[k], pair);
    assert SamePair(r[k], Reversed(pair));
  }

  /** `removeConstructionPair(pair)`: the `filter` that drops every pair equal to `pair` in the same orientation. */
  function RemovePair(ps: seq<ConstructionPair>, pair: ConstructionPair): (r: seq<ConstructionPair>)
    ensures forall x :: x in r <==> x in ps && x != pair
    ensures |r| <= |ps|
  {
    if ps == [] then []
    else
      var rest := RemovePair(ps[1..], pair);
      assert forall x :: x in ps <==> x == ps[0] || x in ps[1..];
      if ps[0] == pair then rest else [ps[0]] + rest
  }

  /** The filter keeps the order: removing from a concatenation removes from each part. */
  lemma {:induction false} RemovePairAppend(ps: seq<ConstructionPair>, qs: seq<ConstructionPair>, pair: ConstructionPair)
    ensures RemovePair(ps + qs, pair) == RemovePair(ps, pair) + RemovePair(qs, pair)
  {
    if ps != [] {
      assert (ps + qs)[1..] == ps[1..] + qs;
      RemovePairAppend(ps[1..], qs, pair);
    } else {
      assert ps + qs == qs;
    }
  }

  /** Removing leaves a pair that is absent untouched, and removes nothing else. */
  lemma {:induction false} RemoveAbsentPair(ps: seq<ConstructionPair>, pair: ConstructionPair)
    requires pair !in ps
    ensures RemovePair(ps, pair) == ps
  {
    if ps != [] {
      assert ps[0] != pair;
      assert pair !in ps[1..];
      RemoveAbsentPair(ps[1..], pair);
      assert ps == [ps[0]] + ps[1..];
    }
  }

  /** Only the same orientation goes: the reversed pair, when distinct and registered, stays. */
  lemma ReversedPairStays(ps: seq<ConstructionPair>, pair: ConstructionPair)
    requires Reversed(pair) != pair && Reversed(pair) in ps
    ensures Reversed(pair) in RemovePair(ps, pair)
  {
  }

  /** Removing keeps the registry free of equivalent pairs. */
  lemma {:induction false} RemovePairKeepsDistinct(ps: seq<ConstructionPair>, pair: ConstructionPair)
    requires NoEquivalentPairs(ps)
    ensures NoEquivalentPairs(RemovePair(ps, pair))
  {
    if ps != [] {
      var tail := ps[1..];
      assert NoEquivalentPairs(tail) by {
        forall i, j | 0 <= i < j < |tail|
          ensures !SamePair(tail[i], tail[j])
        {
          assert tail[i] == ps[i + 1] && tail[j] == ps[j + 1];
        }
      }
      RemovePairKeepsDistinct(tail, pair);
      var rest := RemovePair(tail, pair);
      if ps[0] != pair {
        var r := [ps[0]] + rest;
        forall i, j | 0 <= i < j < |r|
          ensures !SamePair(r[i], r[j])
        {
          if i == 0 {
            assert r[j] == rest[j - 1] && r[j] in tail;
            var k :| 0 <= k < |tail| && tail[k] == r[j];
            assert ps[k + 1] == r[j];
          } else {
            assert r[i] == rest[i - 1] && r[j] == rest[j - 1];
          }
        }
      }
    }
  }

  /** A pair added to a registry that held nothing equivalent is taken back out by removing it. */
  lemma AddThenRemove(ps: seq<ConstructionPair>, pair: ConstructionPair)
    requires !HasSamePair(ps, pair)
    ensures RemovePair(AddPair(ps, pair), pair) == ps
  {
    RemovePairAppend(ps, [pair], pair);
    RemoveAbsentPair(ps, pair);
  }

  // ---------------------------------------------------------------------------------------------------
  // hasConstructionPairFromModels

  /** `getIdAndName`: both present and truthy; unlike the null check in `BuildConstructionTypes`, an empty string counts as missing. */
  function IdAndName(m: LayerInfo): (r: Option<ConstructionType>)
    ensures r.Some? <==> Listed(m).Some? && m.id.value != "" && m.name.value != ""
    ensures r.Some? ==> r == Listed(m)
  {
    if m.id.Some? && m.id.value != "" && m.name.Some? && m.name.value != "" then Some(ConstructionType(m.id.value, m.name.value))
    else None
  }

  /** The `some` over the registry: a pair matching `(t1, t2)` in either orientation. */
  function AnyMatch(ps: seq<ConstructionPair>, t1: ConstructionType, t2: ConstructionType): (b: bool)
    ensures b <==> HasSamePair(ps, ConstructionPair(t1, t2))
  {
    if ps == [] then false
    else
      var p := ps[0];
      var found := (p.first == t1 && p.second == t2) || (p.first == t2 && p.second == t1);
      assert HasSamePair(ps, ConstructionPair(t1, t2)) <==> found || HasSamePair(ps[1..], ConstructionPair(t1, t2)) by {
        if HasSamePair(ps, ConstructionPair(t1, t2)) && !found {
          var k :| 0 <= k < |ps| && SamePair(ps[k], ConstructionPair(t1, t2));
          assert ps[1..][k - 1] == ps[k];
        }
        if HasSamePair(ps[1..], ConstructionPair(t1, t2)) {
          var k :| 0 <= k < |ps[1..]| && SamePair(ps[1..][k], ConstructionPair(t1, t2));
          assert ps[k + 1] == ps[1..][k];
        }
      }
      found || AnyMatch(ps[1..], t1, t2)
  }

  /** `hasConstructionPairFromModels(model1, model2)` against the registry `ps`. */
  function PairAllowed(ps: seq<ConstructionPair>, m1: LayerInfo, m2: LayerInfo): bool {
    var info1 := IdAndName(m1);
    var info2 := IdAndName(m2);
    if info1.None? || info2.None? then false
    else if |ps| < 1 then true
    else AnyMatch(ps, info1.value, info2.value)
  }

  /**
   * The answer is false when either model lacks a truthy id or name; otherwise it is true for an empty
   * registry, and for a non-empty one exactly when a registered pair matches in either orientation.
   */
  lemma PairAllowedIff(ps: seq<ConstructionPair>, m1: LayerInfo, m2: LayerInfo)
    ensures IdAndName(m1).None? || IdAndName(m2).None? ==> !PairAllowed(ps, m1, m2)
    ensures IdAndName(m1).Some? && IdAndName(m2).Some? ==>
              (PairAllowed(ps, m1, m2) <==>
                 ps == [] || HasSamePair(ps, ConstructionPair(IdAndName(m1).value, IdAndName(m2).value)))
  {
  }

  /** The answer does not depend on the order of the two models. */
  lemma PairAllowedSymmetric(ps: seq<ConstructionPair>, m1: LayerInfo, m2: LayerInfo)
    ensures PairAllowed(ps, m1, m2) == PairAllowed(ps, m2, m1)
  {
    var i1, i2 := IdAndName(m1), IdAndName(m2);
    if i1.Some? && i2.Some? && ps != [] {
      if HasSamePair(ps, ConstructionPair(i1.value, i2.value)) {
        var k :| 0 <= k < |ps| && SamePair(ps[k], ConstructionPair(i1.value, i2.value));
        assert SamePair(ps[k], ConstructionPair(i2.value, i1.value));
      }
      if HasSamePair(ps, ConstructionPair(i2.value, i1.value)) {
        var k :| 0 <= k < |ps| && SamePair(ps[k], ConstructionPair(i2.value, i1.value));
        assert SamePair(ps[k], ConstructionPair(i1.value, i2.value));
      }
    }
  }

  /** Once the pair of the two models' types is added, in either orientation, the two models are allowed. */
  lemma AddedPairAllowed(ps: seq<ConstructionPair>, m1: LayerInfo, m2: LayerInfo, flip: bool)
    requires IdAndName(m1).Some? && IdAndName(m2).Some?
    ensures var pair := ConstructionPair(IdAndName(m1).value, IdAndName(m2).value);
            PairAllowed(AddPair(ps, if flip then Reversed(pair) else pair), m1, m2)
  {
    var pair := ConstructionPair(IdAndName(m1).value, IdAndName(m2).value);
    var added := if flip then Reversed(pair) else pair;
    var r := AddPair(ps, added);
    var k :| 0 <= k < |r| && SamePair(r[k], added);
    assert SamePair(r[k], pair);
  }

  /**
   * Removing the pair of two models' types, when its reverse is not registered, stops them from being
   * allowed, unless the registry is left empty and so allows everything.
   */
  lemma RemovedPairNotAllowed(ps: seq<ConstructionPair>, m1: LayerInfo, m2: LayerInfo)
    requires IdAndName(m1).Some? && IdAndName(m2).Some?
    requires var pair := ConstructionPair(IdAndName(m1).value, IdAndName(m2).value);
             Reversed(pair) !in ps || Reversed(pair) == pair
    ensures var r := RemovePair(ps, ConstructionPair(IdAndName(m1).value, IdAndName(m2).value));
            PairAllowed(r, m1, m2) <==> r == []
  {
    var pair := ConstructionPair(IdAndName(m1).value, IdAndName(m2).value);
    var r := RemovePair(ps, pair);
    if r != [] && HasSamePair(r, pair) {
      var k :| 0 <= k < |r| && SamePair(r[k], pair);
    }
  }

  /**
   * A model whose id is the empty string is listed by `BuildConstructionTypes`, which checks only for
   * null, but is never allowed by `hasConstructionPairFromModels`, which checks truthiness.
   */
  lemma EmptyIdListedButNeverAllowed(ps: seq<ConstructionPair>, name: string, other: LayerInfo)
    ensures TypesByKey([LayerInfo(Some(""), Some(name))]) == [ConstructionType("", name)]
    ensures !PairAllowed(ps, LayerInfo(Some(""), Some(name)), other)
  {
    var models := [LayerInfo(Some(""), Some(name))];
    assert ScanByKey(models, 1) == Scan([ConstructionType("", name)], {KeyOf(ConstructionType("", name))});
  }

  // ---------------------------------------------------------------------------------------------------
  // The helper object

  class ConstructionHelper {
    var constructions: seq<ConstructionType>
    var constructionPairs: seq<ConstructionPair>

    /** The registry never holds two equivalent pairs. */
    ghost predicate Valid()
      reads this
    {
      NoEquivalentPairs(constructionPairs)
    }

    constructor()
      ensures constructions == [] && constructionPairs == [] && Valid()
    {
      constructions := [];
      constructionPairs := [];
    }

    /**
     * `BuildConstructionTypes(models)`: resets `constructions` and fills it from the models, skipping
     * those with a null id or name and keeping the first model of each joined key `${id}|${name}`.
     * Where no id holds a `|`, this is one entry per distinct `(id, name)` (see `KeyCollisionDropsType`
     * for the case where it is not).
     */
    method BuildConstructionTypes(models: seq<LayerInfo>)
      modifies this
      ensures constructions == TypesByKey(models)
      ensures IdsWithoutBar(models) ==> constructions == DistinctTypes(models)
      ensures constructionPairs == old(constructionPairs)
      ensures Valid() <==> old(Valid())
    {
      var seen: set<string> := {};
      constructions := [];
      for i := 0 to |models|
        invariant ScanByKey(models, i) == Scan(constructions, seen)
        invariant constructionPairs == old(constructionPairs)
      {
        var model := models[i];
        if model.id.None? || model.name.None? {
          continue;
        }
        var key := Key(model.id.value, model.name.value);
        if key !in seen {
          seen := seen + {key};
          constructions := constructions + [ConstructionType(model.id.value, model.name.value)];
        }
      }
      if IdsWithoutBar(models) {
        TypesByKeyAgreesWithoutBar(models);
      }
    }

    /** `hasConstructionPairFromModels(model1, model2)` against the current registry. */
    function HasConstructionPairFromModels(model1: LayerInfo, model2: LayerInfo): (b: bool)
      reads this
      ensures b <==> IdAndName(model1).Some? && IdAndName(model2).Some? &&
                     (constructionPairs == [] ||
                      HasSamePair(constructionPairs, ConstructionPair(IdAndName(model1).value, IdAndName(model2).value)))
    {
      PairAllowedIff(constructionPairs, model1, model2);
      PairAllowed(constructionPairs, model1, model2)
    }

    /** `addConstructionPair(pair)`: appends `pair` unless an equivalent pair is registered. */
    method AddConstructionPair(pair: ConstructionPair)
      requires Valid()
      modifies this
      ensures Valid()
      ensures constructionPairs == AddPair(old(constructionPairs), pair)
      ensures constructions == old(constructions)
    {
      AddPairKeepsDistinct(constructionPairs, pair);
      var present := exists k :: 0 <= k < |constructionPairs| && SamePair(constructionPairs[k], pair);
      if !present {
        constructionPairs := constructionPairs + [pair];
      }
    }

    /** `removeConstructionPair(pair)`: drops the pairs equal to `pair` in the same orientation. */
    method RemoveConstructionPair(pair: ConstructionPair)
      requires Valid()
      modifies this
      ensures Valid()
      ensures constructionPairs == RemovePair(old(constructionPairs), pair)
      ensures constructions == old(constructions)
    {
      RemovePairKeepsDistinct(constructionPairs, pair);
      constructionPairs := RemovePair(constructionPairs, pair);
    }

    /** `getConstructions()`: the current list itself. */
    function GetConstructions(): (r: seq<ConstructionType>)
      reads this
      ensures r == constructions
    {
      constructions
    }

    /** `getConstructionPairs()`: the current registry itself. */
    function GetConstructionPairs(): (r: seq<ConstructionPair>)
      reads this
      ensures r == constructionPairs
    {
      constructionPairs
    }
  }
}
