/**
 The index of label sets (util/labelindex/sets.go) over the multimaps of util/labelindex/mm: both inverted indexes
 are what they should be after any history, so a query through the cheapest of them is a plain scan.
 */
module LabelSets {
  import opened Common
  import opened Canonical

  type Name = string

  // ----- multimaps -----

  ghost predicate Has<K, V>(m: map<K, set<V>>, key: K, value: V) {
    key in m && value in m[key]
  }

  // Keys without values are removed.
  ghost predicate NoEmptySets<K, V>(m: map<K, set<V>>) {
    forall key :: key in m ==> m[key] != {}
  }

  class MultiMap<K(==, !new), V(==, !new)> {
    var sets: map<K, set<V>>

    constructor ()
      ensures sets == map[]
    {
      sets := map[];
    }

    method Insert(key: K, value: V) returns (existed: bool)
      requires NoEmptySets(sets)
      modifies this
      ensures NoEmptySets(sets) && existed == Has(old(sets), key, value)
      ensures forall k, v :: Has(sets, k, v) <==> Has(old(sets), k, v) || (k == key && v == value)
    {
      var values := if key in sets then sets[key] else {};
      existed := value in values;
      sets := sets[key := values + {value}];
    }

    method Remove(key: K, value: V) returns (existed: bool)
      requires NoEmptySets(sets)
      modifies this
      ensures NoEmptySets(sets) && existed == Has(old(sets), key, value)
      ensures forall k, v :: Has(sets, k, v) <==> Has(old(sets), k, v) && !(k == key && v == value)
    {
      if key !in sets {
        return false;
      }
      if value !in sets[key] {
        return false;
      }
      var values := sets[key] - {value};
      sets := if |values| == 0 then sets - {key} else sets[key := values];
      existed := true;
    }
  }

  // ----- the two inverted indexes -----

  predicate HasKey(set_: Set, key: Key) {
    exists i :: 0 <= i < |set_| && set_[i].key == key
  }

  // Which names have a pair, and which have a key.
  ghost predicate KvIndexed(kv: map<KvPair, set<Name>>, known: map<Name, Set>) {
    forall pair, name :: Has(kv, pair, name) <==> name in known && pair in known[name]
  }

  ghost predicate KeyIndexed(keys: map<Key, set<Name>>, known: map<Name, Set>) {
    forall key, name :: Has(keys, key, name) <==> name in known && HasKey(known[name], key)
  }

  ghost predicate Consistent(known: map<Name, Set>, raws: map<Name, map<Key, string>>) {
    known.Keys == raws.Keys && forall name :: name in known ==> Represents(known[name], raws[name])
  }

  // The indexes of known with only the first pairs of one name.
  ghost predicate Partly(kv: map<KvPair, set<Name>>, keys: map<Key, set<Name>>, known: map<Name, Set>,
                         name: Name, pairs: Set) {
    KvIndexed(kv, known[name := pairs]) && KeyIndexed(keys, known[name := pairs])
  }

  lemma AddPair(kv: map<KvPair, set<Name>>, keys: map<Key, set<Name>>, kv': map<KvPair, set<Name>>,
                keys': map<Key, set<Name>>, known: map<Name, Set>, name: Name, pairs: Set, pair: KvPair)
    requires Partly(kv, keys, known, name, pairs)
    requires forall k, v :: Has(kv', k, v) <==> Has(kv, k, v) || (k == pair && v == name)
    requires forall k, v :: Has(keys', k, v) <==> Has(keys, k, v) || (k == pair.key && v == name)
    ensures Partly(kv', keys', known, name, pairs + [pair])
  {
    var before, after := known[name := pairs], known[name := pairs + [pair]];
    hide Has;
    forall p, x ensures Has(kv', p, x) <==> x in after && p in after[x] {
      assert Has(kv, p, x) <==> x in before && p in before[x];
    }
    forall k, x ensures Has(keys', k, x) <==> x in after && HasKey(after[x], k) {
      assert Has(keys, k, x) <==> x in before && HasKey(before[x], k);
      HasKeySnoc(pairs, pair, k);
    }
  }

  lemma HasKeySnoc(pairs: Set, pair: KvPair, key: Key)
    ensures HasKey(pairs + [pair], key) <==> HasKey(pairs, key) || pair.key == key
  {
    if pair.key == key { assert (pairs + [pair])[|pairs|].key == key; }
    if i :| 0 <= i < |pairs| && pairs[i].key == key { assert (pairs + [pair])[i].key == key; }
  }

  lemma RemovePair(kv: map<KvPair, set<Name>>, keys: map<Key, set<Name>>, kv': map<KvPair, set<Name>>,
                   keys': map<Key, set<Name>>, known: map<Name, Set>, name: Name, pairs: Set)
    requires Partly(kv, keys, known, name, pairs) && pairs != []
    requires forall i, j :: 0 <= i < j < |pairs| ==> pairs[i].key != pairs[j].key
    requires forall k, v :: Has(kv', k, v) <==> Has(kv, k, v) && !(k == pairs[0] && v == name)
    requires forall k, v :: Has(keys', k, v) <==> Has(keys, k, v) && !(k == pairs[0].key && v == name)
    ensures Partly(kv', keys', known, name, pairs[1..])
  {
    var before, after := known[name := pairs], known[name := pairs[1..]];
    assert pairs == [pairs[0]] + pairs[1..];
    hide Has;
    forall p, x ensures Has(kv', p, x) <==> x in after && p in after[x] {
      assert Has(kv, p, x) <==> x in before && p in before[x];
    }
    forall k, x ensures Has(keys', k, x) <==> x in after && HasKey(after[x], k) {
      assert Has(keys, k, x) <==> x in before && HasKey(before[x], k);
      if i :| 0 <= i < |pairs| && pairs[i].key == k { assert i > 0 ==> pairs[1..][i - 1].key == k; }
      if i :| 0 <= i < |pairs[1..]| && pairs[1..][i].key == k { assert pairs[i + 1].key == k; }
    }
  }

  // Nothing indexed for a name is the same as the name not being known.
  lemma PartlyNone(kv: map<KvPair, set<Name>>, keys: map<Key, set<Name>>, known: map<Name, Set>, name: Name)
    ensures name !in known ==>
      (Partly(kv, keys, known, name, []) <==> KvIndexed(kv, known) && KeyIndexed(keys, known))
    ensures Partly(kv, keys, known, name, []) ==> KvIndexed(kv, known - {name}) && KeyIndexed(keys, known - {name})
  {
    assert forall key :: !HasKey([], key);
  }

  // ----- the index -----

  datatype QueryIndex = All | KeyExist(reqmt: KeyReqmt) | KeyValues(reqmtIn: ValuesReqmt)

  class Sets {
    var known: map<Name, Set>
    const kvIndex: MultiMap<KvPair, Name>
    const keyIndex: MultiMap<Key, Name>
    ghost var raws: map<Name, map<Key, string>>

    ghost predicate Valid()
      reads this, kvIndex, keyIndex
    {
      && NoEmptySets(kvIndex.sets) && NoEmptySets(keyIndex.sets)
      && Consistent(known, raws) && KvIndexed(kvIndex.sets, known) && KeyIndexed(keyIndex.sets, known)
    }

    constructor ()
      ensures Valid() && raws == map[] && fresh(kvIndex) && fresh(keyIndex)
    {
      known, raws := map[], map[];
      kvIndex := new MultiMap<KvPair, Name>();
      keyIndex := new MultiMap<Key, Name>();
    }

    method Track(name: Name, labels: map<Key, string>) returns (panicked: bool)
      requires Valid()
      modifies this`known, this`raws, kvIndex, keyIndex
      ensures Valid() && !panicked && raws == old(raws)[name := labels]
    {
      var existed;
      existed, panicked := Untrack(name);
      hide *;
      panicked := DoTrack(name, labels);
      WithoutThenWith(old(raws), name, labels);
    }

    method DoTrack(name: Name, labels: map<Key, string>) returns (panicked: bool)
      requires Valid() && name !in raws
      modifies this`known, this`raws, kvIndex, keyIndex
      ensures Valid() && !panicked && raws == old(raws)[name := labels]
    {
      var labelSet := CreateSet(labels);
      ghost var known' := known[name := labelSet];
      assert Consistent(known', raws[name := labels]) && known'[name := []] == known[name := []];
      PartlyNone(kvIndex.sets, keyIndex.sets, known, name);
      hide Consistent, KvIndexed, KeyIndexed, Represents;
      panicked := name in known;
      known := known[name := labelSet];
      raws := raws[name := labels];
      if panicked {
        return;
      }
      InsertPairs(name, labelSet);
      assert known[name := labelSet] == known;
    }

    method InsertPairs(name: Name, labelSet: Set)
      requires NoEmptySets(kvIndex.sets) && NoEmptySets(keyIndex.sets)
      requires Partly(kvIndex.sets, keyIndex.sets, known, name, [])
      modifies kvIndex, keyIndex
      ensures NoEmptySets(kvIndex.sets) && NoEmptySets(keyIndex.sets)
      ensures KvIndexed(kvIndex.sets, known[name := labelSet]) && KeyIndexed(keyIndex.sets, known[name := labelSet])
    {
      hide KvIndexed, KeyIndexed, NoEmptySets, Has;
      for i := 0 to |labelSet|
        invariant NoEmptySets(kvIndex.sets) && NoEmptySets(keyIndex.sets)
        invariant Partly(kvIndex.sets, keyIndex.sets, known, name, labelSet[..i])
      {
        hide Partly;
        ghost var kv, keys := kvIndex.sets, keyIndex.sets;
        var _ := kvIndex.Insert(labelSet[i], name);
        var _ := keyIndex.Insert(labelSet[i].key, name);
        AddPair(kv, keys, kvIndex.sets, keyIndex.sets, known, name, labelSet[..i], labelSet[i]);
        assert labelSet[..i + 1] == labelSet[..i] + [labelSet[i]];
      }
      assert labelSet[..|labelSet|] == labelSet;
    }

    method Untrack(name: Name) returns (existed: bool, panicked: bool)
      requires Valid()
      modifies this`known, this`raws, kvIndex, keyIndex
      ensures Valid() && !panicked && existed == (name in old(raws)) && raws == old(raws) - {name}
    {
      if name !in known {
        WithoutAbsent(raws, name);
        return false, false;
      }
      var labelSet := known[name];
      assert Consistent(known - {name}, raws - {name}) && Represents(labelSet, raws[name]);
      SetKeysDiffer(labelSet, raws[name]);
      assert (known - {name})[name := labelSet] == known;
      hide Consistent, Represents, KvIndexed, KeyIndexed;
      known := known - {name};
      raws := raws - {name};
      existed := true;
      panicked := RemovePairs(name, labelSet);
      PartlyNone(kvIndex.sets, keyIndex.sets, known, name);
      WithoutAbsent(known, name);
    }

    method RemovePairs(name: Name, labelSet: Set) returns (panicked: bool)
      requires NoEmptySets(kvIndex.sets) && NoEmptySets(keyIndex.sets)
      requires Partly(kvIndex.sets, keyIndex.sets, known, name, labelSet)
      requires forall i, j :: 0 <= i < j < |labelSet| ==> labelSet[i].key != labelSet[j].key
      modifies kvIndex, keyIndex
      ensures NoEmptySets(kvIndex.sets) && NoEmptySets(keyIndex.sets) && !panicked
      ensures Partly(kvIndex.sets, keyIndex.sets, known, name, [])
    {
      assert labelSet[0..] == labelSet;
      panicked := false;
      for i := 0 to |labelSet|
        invariant NoEmptySets(kvIndex.sets) && NoEmptySets(keyIndex.sets) && !panicked
        invariant Partly(kvIndex.sets, keyIndex.sets, known, name, labelSet[i..])
      {
        panicked := RemoveFirst(name, labelSet[i..]);
        assert labelSet[i..][1..] == labelSet[i + 1..];
        if panicked {
          return;
        }
      }
    }

    method RemoveFirst(name: Name, pairs: Set) returns (panicked: bool)
      requires NoEmptySets(kvIndex.sets) && NoEmptySets(keyIndex.sets) && pairs != []
      requires Partly(kvIndex.sets, keyIndex.sets, known, name, pairs)
      requires forall i, j :: 0 <= i < j < |pairs| ==> pairs[i].key != pairs[j].key
      modifies kvIndex, keyIndex
      ensures NoEmptySets(kvIndex.sets) && NoEmptySets(keyIndex.sets) && !panicked
      ensures Partly(kvIndex.sets, keyIndex.sets, known, name, pairs[1..])
    {
      ghost var kv, keys := kvIndex.sets, keyIndex.sets;
      assert Has(kv, pairs[0], name) && Has(keys, pairs[0].key, name);
      hide Partly, NoEmptySets, Has;
      var kvExisted := kvIndex.Remove(pairs[0], name);
      if !kvExisted {
        return true;
      }
      var keyExisted := keyIndex.Remove(pairs[0].key, name);
      if !keyExisted {
        return true;
      }
      RemovePair(kv, keys, kvIndex.sets, keyIndex.sets, known, name, pairs);
      return false;
    }

    // ----- queries -----

    // The names an index offers.
    ghost predicate Offers(index: QueryIndex, name: Name)
      reads this
    {
      name in known && match index
        case All => true
        case KeyExist(reqmt) => HasKey(known[name], reqmt.key)
        case KeyValues(reqmt) => exists value :: value in reqmt.values && KvPair(reqmt.key, value) in known[name]
    }

    function Cardinality(index: QueryIndex): nat
      reads this, kvIndex, keyIndex
    {
      match index
      case All => |known|
      case KeyExist(reqmt) => if reqmt.key in keyIndex.sets then |keyIndex.sets[reqmt.key]| else 0
      case KeyValues(reqmt) => Cardinalities(reqmt.key, reqmt.values)
    }

    function Cardinalities(key: Key, values: seq<string>): nat
      reads kvIndex
    {
      if values == [] then 0
      else
        (if KvPair(key, values[0]) in kvIndex.sets then |kvIndex.sets[KvPair(key, values[0])]| else 0) +
        Cardinalities(key, values[1..])
    }

    method Iterate(index: QueryIndex) returns (names: seq<Name>)
      requires Valid()
      ensures forall name :: name in names <==> Offers(index, name)
    {
      match index
      case All =>
        names := FromSet(known.Keys);
      case KeyExist(reqmt) =>
        names := FromSet(if reqmt.key in keyIndex.sets then keyIndex.sets[reqmt.key] else {});
        assert forall name :: name in names <==> Has(keyIndex.sets, reqmt.key, name);
      case KeyValues(reqmt) =>
        names := [];
        for i := 0 to |reqmt.values|
          invariant forall name :: name in names <==>
            name in known && exists j :: 0 <= j < i && KvPair(reqmt.key, reqmt.values[j]) in known[name]
        {
          var more := IterateValue(KvPair(reqmt.key, reqmt.values[i]));
          names := names + more;
        }
    }

    method IterateValue(pair: KvPair) returns (names: seq<Name>)
      requires Valid()
      ensures forall name :: name in names <==> name in known && pair in known[name]
    {
      names := FromSet(if pair in kvIndex.sets then kvIndex.sets[pair] else {});
      assert forall name :: name in names <==> Has(kvIndex.sets, pair, name);
    }

    // The cardinality of an index is the number of names it goes through, once for each value that offers them.
    lemma CardinalityCounts(index: QueryIndex)
      requires Valid()
      ensures index.All? || index.KeyExist? ==> Cardinality(index) == |set name | name in known && Offers(index, name)|
      ensures index.KeyValues? ==> Cardinality(index) == NamesWith(index.reqmtIn.key, index.reqmtIn.values)
    {
      match index
      case All =>
        assert (set name | name in known && Offers(index, name)) == known.Keys;
      case KeyExist(reqmt) =>
        var names := if reqmt.key in keyIndex.sets then keyIndex.sets[reqmt.key] else {};
        assert forall name :: name in names <==> Has(keyIndex.sets, reqmt.key, name);
        assert (set name | name in known && Offers(index, name)) == names;
      case KeyValues(reqmt) =>
        CardinalitiesCount(reqmt.key, reqmt.values);
    }

    // The names with each value, added up.
    ghost function NamesWith(key: Key, values: seq<string>): nat
      reads this
    {
      if values == [] then 0
      else |set name | name in known && KvPair(key, values[0]) in known[name]| + NamesWith(key, values[1..])
    }

    lemma {:induction false} CardinalitiesCount(key: Key, values: seq<string>)
      requires Valid()
      ensures Cardinalities(key, values) == NamesWith(key, values)
    {
      if values != [] {
        var pair := KvPair(key, values[0]);
        var names := if pair in kvIndex.sets then kvIndex.sets[pair] else {};
        assert forall name :: name in names <==> Has(kvIndex.sets, pair, name);
        assert (set name | name in known && pair in known[name]) == names;
        hide Valid;
        CardinalitiesCount(key, values[1..]);
      }
    }

    // The cheapest index, each offering every name that can match.
    method BestIndex(selector: Selector) returns (best: QueryIndex)
      ensures Needed(selector, best)
      ensures Cardinality(best) <= Cardinality(All)
      ensures forall i ::
        0 <= i < |selector.keyExist| ==> Cardinality(best) <= Cardinality(KeyExist(selector.keyExist[i]))
      ensures forall i :: 0 <= i < |selector.keyIn| ==> Cardinality(best) <= Cardinality(KeyValues(selector.keyIn[i]))
    {
      best := All;
      for i := 0 to |selector.keyExist|
        invariant Needed(selector, best) && Cardinality(best) <= Cardinality(All)
        invariant forall j :: 0 <= j < i ==> Cardinality(best) <= Cardinality(KeyExist(selector.keyExist[j]))
      {
        if Cardinality(best) > Cardinality(KeyExist(selector.keyExist[i])) {
          best := KeyExist(selector.keyExist[i]);
        }
      }
      ghost var afterExist := best;
      for i := 0 to |selector.keyIn|
        invariant Needed(selector, best) && Cardinality(best) <= Cardinality(afterExist)
        invariant forall j :: 0 <= j < i ==> Cardinality(best) <= Cardinality(KeyValues(selector.keyIn[j]))
      {
        if Cardinality(best) > Cardinality(KeyValues(selector.keyIn[i])) {
          best := KeyValues(selector.keyIn[i]);
        }
      }
    }

    // A plain scan: the tracked names whose labels the selector matches, once each; None for an unknown operator.
    method Query(raw: LabelSelector) returns (result: Option<seq<Name>>)
      requires Valid()
      ensures result == None <==> exists expr :: expr in raw.matchExpressions && !Known(expr)
      ensures result.Some? ==> Distinct(result.value)
      ensures result.Some? ==> forall name :: name in result.value <==> name in raws && RawMatches(raw, raws[name])
    {
      var created := CreateSelector(raw);
      if created.None? {
        return None;
      }
      var selector := created.value;
      var best := BestIndex(selector);
      var candidates := Iterate(best);
      hide Valid, Canonicalizes, Offers;
      AllSorted(selector, raw);
      var names := Filtered(candidates, selector);
      forall name ensures name in names <==> name in raws && RawMatches(raw, raws[name]) {
        MatchedIff(selector, raw, best, name);
      }
      return Some(names);
    }

    lemma AllSorted(selector: Selector, raw: LabelSelector)
      requires Valid() && Canonicalizes(selector, raw)
      ensures InCanonicalOrder(selector)
      ensures forall name :: name in known ==> SortedBy(PAIR_KEY, known[name])
    {
      SelectorSorted(selector, raw);
      forall name | name in known ensures SortedBy(PAIR_KEY, known[name]) { SetSorted(known[name], raws[name]); }
    }

    lemma MatchedIff(selector: Selector, raw: LabelSelector, index: QueryIndex, name: Name)
      requires Valid() && Canonicalizes(selector, raw) && Needed(selector, index)
      requires forall expr :: expr in raw.matchExpressions ==> Known(expr)
      ensures Offers(index, name) && name in known && SelectorMatches(selector, known[name]) <==>
        name in raws && RawMatches(raw, raws[name])
    {
      if name in known {
        CanonicalMatchIsMatch(selector, raw, known[name], raws[name]);
        if SelectorMatches(selector, known[name]) { MatchOffered(selector, index, name); }
      }
    }

    // Whatever index a selector chooses offers the names it matches.
    lemma MatchOffered(selector: Selector, index: QueryIndex, name: Name)
      requires Consistent(known, raws) && Needed(selector, index) && name in known
      requires SelectorMatches(selector, known[name])
      ensures Offers(index, name)
    {
      match index
      case All =>
      case KeyExist(reqmt) =>
        var i :| 0 <= i < |selector.keyExist| && selector.keyExist[i] == reqmt;
        FirstFound(PAIR_KEY, known[name], reqmt.key);
      case KeyValues(reqmt) =>
        var i :| 0 <= i < |selector.keyIn| && selector.keyIn[i] == reqmt;
        assert HasOneOf((selector.keyIn[i], PairFor(known[name], reqmt.key)));
        FirstFound(PAIR_KEY, known[name], reqmt.key);
        var pair := PairFor(known[name], reqmt.key).value;
        assert pair == KvPair(reqmt.key, pair.value);
    }

    method Filtered(candidates: seq<Name>, selector: Selector) returns (names: seq<Name>)
      requires forall name :: name in candidates ==> name in known
      requires InCanonicalOrder(selector)
      requires forall name :: name in known ==> SortedBy(PAIR_KEY, known[name])
      ensures Distinct(names)
      ensures forall name ::
        name in names <==> name in candidates && name in known && SelectorMatches(selector, known[name])
    {
      hide InCanonicalOrder, SortedBy, SelectorMatches;
      names := [];
      var seen: set<Name> := {};
      for i := 0 to |candidates|
        invariant Distinct(names) && forall name :: name in seen <==> name in names
        invariant forall name :: name in names <==>
          name in candidates[..i] && name in known && SelectorMatches(selector, known[name])
      {
        var name := candidates[i];
        assert candidates[..i + 1] == candidates[..i] + [name];
        var matches := Canonical.Matches(selector, known[name]);
        if matches && name !in seen {
          seen := seen + {name};
          names := names + [name];
        }
      }
      assert candidates[..|candidates|] == candidates;
    }
  }

  // An index of one of the selector's requirements, or of none.
  predicate Needed(selector: Selector, index: QueryIndex) {
    match index
    case All => true
    case KeyExist(reqmt) => reqmt in selector.keyExist
    case KeyValues(reqmt) => reqmt in selector.keyIn
  }

  lemma SetKeysDiffer(set_: Set, raw: map<Key, string>)
    requires Represents(set_, raw)
    ensures forall i, j :: 0 <= i < j < |set_| ==> set_[i].key != set_[j].key
  {
    forall i, j | 0 <= i < j < |set_| ensures set_[i].key != set_[j].key { BelowIsTotal(set_[i].key, set_[j].key); }
  }

  method FromSet(items: set<Name>) returns (names: seq<Name>)
    ensures forall name :: name in names <==> name in items
  {
    names := [];
    var rest := items;
    while rest != {}
      invariant rest <= items && forall name :: name in names <==> name in items && name !in rest
    {
      var name :| name in rest;
      rest := rest - {name};
      names := names + [name];
    }
  }
}
