/**
 The index of label selectors (util/labelindex/selectors.go): what a query yields after any history of Track and
 Untrack, and when the index panics.
 */
module LabelSelectors {
  import opened Common
  import opened Canonical
  import opened SetTrie
  import opened SetTrieNodes
  import opened Matchable

  type Name = string

  datatype Empty = Empty

  datatype TrackResult = Tracked | UnknownOperator | Panicked

  // Which names are stored under which words.
  ghost predicate Stored(t: Tree<Letter, map<Name, Empty>>, word: Word<Letter>, name: Name) {
    name in Entry(t, word)
  }

  // The names stored are those of t, and name under the first n words.
  ghost predicate Added(t: Tree<Letter, map<Name, Empty>>, t': Tree<Letter, map<Name, Empty>>,
                        words: seq<Word<Letter>>, name: Name) {
    forall word, x :: Stored(t', word, x) <==> Stored(t, word, x) || (x == name && word in words)
  }

  ghost predicate Removed(t: Tree<Letter, map<Name, Empty>>, t': Tree<Letter, map<Name, Empty>>,
                          words: seq<Word<Letter>>, name: Name) {
    forall word, x :: Stored(t', word, x) <==> Stored(t, word, x) && !(x == name && word in words)
  }

  lemma DistinctPrefix<T(!new)>(s: seq<T>, i: nat)
    requires i < |s| && Distinct(s[..i])
    ensures Distinct(s[..i + 1]) <==> s[i] !in s[..i]
    ensures s[i] in s[..i] ==> !Distinct(s)
    ensures s[..i + 1] == s[..i] + [s[i]]
  {
    assert s[..i + 1] == s[..i] + [s[i]];
    if s[i] in s[..i] {
      var j :| 0 <= j < i && s[..i][j] == s[i];
      assert s[j] == s[i] && s[..i + 1][j] == s[..i + 1][i];
    } else {
      var t := s[..i + 1];
      forall j, k | 0 <= j < k < |t| ensures t[j] != t[k] {
        if k < i { assert s[..i][j] != s[..i][k]; } else { assert s[..i][j] in s[..i]; }
      }
    }
  }

  lemma AddOne(t: Tree<Letter, map<Name, Empty>>, t1: Tree<Letter, map<Name, Empty>>,
               t2: Tree<Letter, map<Name, Empty>>, words: seq<Word<Letter>>, word: Word<Letter>, name: Name)
    requires Added(t, t1, words, name) && EntrySet(t1, t2, word, Entry(t1, word)[name := Empty])
    ensures Added(t, t2, words + [word], name)
  {
    forall w, x ensures Stored(t2, w, x) <==> Stored(t, w, x) || (x == name && w in words + [word]) {
      assert Stored(t1, w, x) <==> Stored(t, w, x) || (x == name && w in words);
    }
  }

  lemma RemoveOne(t: Tree<Letter, map<Name, Empty>>, t1: Tree<Letter, map<Name, Empty>>,
                  t2: Tree<Letter, map<Name, Empty>>, words: seq<Word<Letter>>, word: Word<Letter>, name: Name)
    requires Removed(t, t1, words, name) && EntrySet(t1, t2, word, Entry(t1, word) - {name})
    ensures Removed(t, t2, words + [word], name)
  {
    forall w, x ensures Stored(t2, w, x) <==> Stored(t, w, x) && !(x == name && w in words + [word]) {
      assert Stored(t1, w, x) <==> Stored(t, w, x) && !(x == name && w in words);
    }
  }

  // Inserting the name under every word panics exactly when a word comes twice.
  method InsertWords(trie: Multi<Letter, Name, Empty>, words: seq<Word<Letter>>, name: Name) returns (panicked: bool)
    requires trie.Valid() && forall word :: !Stored(trie.trie.root.tree, word, name)
    modifies trie.trie.root.repr
    ensures trie.Valid() && fresh(trie.trie.root.repr - old(trie.trie.root.repr))
    ensures panicked <==> !Distinct(words)
    ensures !panicked ==> Added(old(trie.trie.root.tree), trie.trie.root.tree, words, name)
  {
    assert words[..0] == [];
    for i := 0 to |words|
      invariant trie.Valid() && fresh(trie.trie.root.repr - old(trie.trie.root.repr))
      invariant Distinct(words[..i])
      invariant Added(old(trie.trie.root.tree), trie.trie.root.tree, words[..i], name)
    {
      DistinctPrefix(words, i);
      ghost var t := trie.trie.root.tree;
      assert Stored(t, words[i], name) <==> words[i] in words[..i];
      hide Distinct, Added;
      var existed := trie.Insert(words[i], name, Empty);
      if existed {
        return true;
      }
      AddOne(old(trie.trie.root.tree), t, trie.trie.root.tree, words[..i], words[i], name);
    }
    assert words[..|words|] == words;
    return false;
  }

  // Removing it from every word panics if it is missing from one.
  method RemoveWords(trie: Multi<Letter, Name, Empty>, words: seq<Word<Letter>>, name: Name) returns (panicked: bool)
    requires trie.Valid() && Distinct(words)
    requires forall word :: word in words ==> Stored(trie.trie.root.tree, word, name)
    modifies trie.trie.root.repr
    ensures trie.Valid() && fresh(trie.trie.root.repr - old(trie.trie.root.repr))
    ensures !panicked && Removed(old(trie.trie.root.tree), trie.trie.root.tree, words, name)
  {
    for i := 0 to |words|
      invariant trie.Valid() && fresh(trie.trie.root.repr - old(trie.trie.root.repr))
      invariant Removed(old(trie.trie.root.tree), trie.trie.root.tree, words[..i], name)
    {
      assert words[i] !in words[..i];
      assert words[..i + 1] == words[..i] + [words[i]];
      ghost var t := trie.trie.root.tree;
      assert Stored(t, words[i], name);
      hide Removed;
      var existed := trie.Remove(words[i], name);
      if !existed {
        return true;
      }
      RemoveOne(old(trie.trie.root.tree), t, trie.trie.root.tree, words[..i], words[i], name);
    }
    assert words[..|words|] == words;
    return false;
  }

  // ----- the index -----

  ghost predicate AllKnown(raw: LabelSelector) {
    forall expr :: expr in raw.matchExpressions ==> Known(expr)
  }

  // The trie stores each tracked name under the words of its selector, and nothing else.
  ghost predicate Mirrors(t: Tree<Letter, map<Name, Empty>>, known: map<Name, Selector>,
                          sort: seq<Letter> -> Word<Letter>) {
    forall word, name :: Stored(t, word, name) <==> name in known && word in WordsForSelector(sort, known[name])
  }

  // A tracked selector is the canonical form of what was tracked, and did not panic.
  ghost predicate Faithful(selector: Selector, raw: LabelSelector, sort: seq<Letter> -> Word<Letter>) {
    Canonicalizes(selector, raw) && AllKnown(raw) && Distinct(WordsForSelector(sort, selector))
  }

  lemma MirrorsAdded(t: Tree<Letter, map<Name, Empty>>, t': Tree<Letter, map<Name, Empty>>,
                     known: map<Name, Selector>, sort: seq<Letter> -> Word<Letter>, name: Name, selector: Selector)
    requires Mirrors(t, known, sort) && name !in known
    requires Added(t, t', WordsForSelector(sort, selector), name)
    ensures Mirrors(t', known[name := selector], sort)
  {
    hide Stored, WordsForSelector;
    forall word, x ensures Stored(t', word, x) <==>
      x in known[name := selector] && word in WordsForSelector(sort, known[name := selector][x])
    {
      assert Stored(t, word, x) <==> x in known && word in WordsForSelector(sort, known[x]);
    }
  }

  lemma MirrorsRemoved(t: Tree<Letter, map<Name, Empty>>, t': Tree<Letter, map<Name, Empty>>,
                       known: map<Name, Selector>, sort: seq<Letter> -> Word<Letter>, name: Name)
    requires Mirrors(t, known, sort) && name in known
    requires Removed(t, t', WordsForSelector(sort, known[name]), name)
    ensures Mirrors(t', known - {name}, sort)
  {
    hide Stored, WordsForSelector;
    forall word, x ensures Stored(t', word, x) <==>
      x in known - {name} && word in WordsForSelector(sort, (known - {name})[x])
    {
      assert Stored(t, word, x) <==> x in known && word in WordsForSelector(sort, known[x]);
    }
  }

  ghost predicate Consistent(known: map<Name, Selector>, raws: map<Name, LabelSelector>,
                             sort: seq<Letter> -> Word<Letter>) {
    && IsSort(sort) && raws.Keys == known.Keys
    && forall name :: name in known ==> Faithful(known[name], raws[name], sort)
  }

  lemma ConsistentChanges(known: map<Name, Selector>, raws: map<Name, LabelSelector>,
                          sort: seq<Letter> -> Word<Letter>, name: Name, selector: Selector, raw: LabelSelector)
    requires Consistent(known, raws, sort)
    ensures Consistent(known - {name}, raws - {name}, sort)
    ensures Faithful(selector, raw, sort) ==> Consistent(known[name := selector], raws[name := raw], sort)
  {
    hide Faithful, IsSort;
  }

  lemma WordsStored(t: Tree<Letter, map<Name, Empty>>, known: map<Name, Selector>, raws: map<Name, LabelSelector>,
                    sort: seq<Letter> -> Word<Letter>, name: Name)
    requires Consistent(known, raws, sort) && Mirrors(t, known, sort)
    ensures name in known ==>
      && Distinct(WordsForSelector(sort, known[name]))
      && forall word :: word in WordsForSelector(sort, known[name]) ==> Stored(t, word, name)
    ensures name !in known ==> forall word :: !Stored(t, word, name)
  {
    if name in known { assert Faithful(known[name], raws[name], sort); }
  }

  lemma Forget(t: Tree<Letter, map<Name, Empty>>, t': Tree<Letter, map<Name, Empty>>, known: map<Name, Selector>,
               raws: map<Name, LabelSelector>, sort: seq<Letter> -> Word<Letter>, name: Name)
    requires Consistent(known, raws, sort) && Mirrors(t, known, sort) && name in known
    requires Removed(t, t', WordsForSelector(sort, known[name]), name)
    ensures Consistent(known - {name}, raws - {name}, sort) && Mirrors(t', known - {name}, sort)
  {
    MirrorsRemoved(t, t', known, sort, name);
    ConsistentChanges(known, raws, sort, name, known[name], raws[name]);
  }

  lemma Remember(t: Tree<Letter, map<Name, Empty>>, t': Tree<Letter, map<Name, Empty>>, known: map<Name, Selector>,
                 raws: map<Name, LabelSelector>, sort: seq<Letter> -> Word<Letter>, name: Name, selector: Selector,
                 raw: LabelSelector)
    requires Consistent(known, raws, sort) && Mirrors(t, known, sort) && name !in known && Faithful(selector, raw, sort)
    requires Added(t, t', WordsForSelector(sort, selector), name)
    ensures Consistent(known[name := selector], raws[name := raw], sort)
    ensures Mirrors(t', known[name := selector], sort)
  {
    MirrorsAdded(t, t', known, sort, name, selector);
    ConsistentChanges(known, raws, sort, name, selector, raw);
  }

  class Selectors {
    var known: map<Name, Selector>
    const trie: Multi<Letter, Name, Empty>
    const sort: seq<Letter> -> Word<Letter>
    ghost var raws: map<Name, LabelSelector>

    ghost predicate Valid()
      reads this, trie.trie.root, trie.trie.root.repr
    {
      trie.Valid() && Consistent(known, raws, sort) && Mirrors(trie.trie.root.tree, known, sort)
    }

    constructor (sort: seq<Letter> -> Word<Letter>)
      requires IsSort(sort)
      ensures Valid() && raws == map[] && fresh(trie.trie.root.repr) && this.sort == sort
    {
      known, raws := map[], map[];
      trie := new Multi<Letter, Name, Empty>();
      this.sort := sort;
    }

    // Never panics.
    method Untrack(name: Name) returns (existed: bool)
      requires Valid()
      modifies this`known, this`raws, trie.trie.root.repr
      ensures Valid() && fresh(trie.trie.root.repr - old(trie.trie.root.repr))
      ensures existed == (name in old(raws)) && raws == old(raws) - {name}
    {
      assert raws.Keys == known.Keys;
      if name !in known {
        WithoutAbsent(raws, name);
        return false;
      }
      hide Consistent, Mirrors;
      RemoveFromTrie(name);
      Store(known - {name}, raws - {name});
      return true;
    }

    method Store(known': map<Name, Selector>, ghost raws': map<Name, LabelSelector>)
      requires trie.Valid() && Consistent(known', raws', sort) && Mirrors(trie.trie.root.tree, known', sort)
      modifies this`known, this`raws
      ensures Valid() && known == known' && raws == raws'
    {
      hide Consistent, Mirrors;
      known := known';
      raws := raws';
    }

    method RemoveFromTrie(name: Name)
      requires Valid() && name in known
      modifies trie.trie.root.repr
      ensures trie.Valid() && fresh(trie.trie.root.repr - old(trie.trie.root.repr))
      ensures Consistent(known - {name}, raws - {name}, sort) && Mirrors(trie.trie.root.tree, known - {name}, sort)
    {
      ghost var t := trie.trie.root.tree;
      WordsStored(t, known, raws, sort, name);
      hide Mirrors, Consistent, Removed, WordsForSelector, Stored, Distinct;
      var panicked := RemoveWords(trie, WordsForSelector(sort, known[name]), name);
      Forget(t, trie.trie.root.tree, known, raws, sort, name);
    }

    // Panics exactly when two words of the selector are the same. On an unknown operator the name is no longer
    // tracked, although the index promises to be as before on an error: it is so exactly for a name not tracked before.
    method Track(name: Name, raw: LabelSelector) returns (result: TrackResult, ghost selector: Selector)
      requires Valid()
      modifies this`known, this`raws, trie.trie.root.repr
      ensures fresh(trie.trie.root.repr - old(trie.trie.root.repr))
      ensures result == UnknownOperator <==> !AllKnown(raw)
      ensures result != UnknownOperator ==>
        Canonicalizes(selector, raw) && (result == Panicked <==> !Distinct(WordsForSelector(sort, selector)))
      ensures result != Panicked ==>
        Valid() && raws == if result == Tracked then old(raws)[name := raw] else old(raws) - {name}
      ensures result == UnknownOperator ==> (raws == old(raws) <==> name !in old(raws))
    {
      hide Mirrors, Faithful, Consistent;
      var existed := Untrack(name);
      NotTracked(name);
      hide Valid;
      var created := CreateSelector(raw);
      if created.None? {
        WithoutAbsent(old(raws), name);
        return UnknownOperator, Selector([], [], [], []);
      }
      selector := created.value;
      result := Insert(name, raw, created.value);
      WithoutThenWith(old(raws), name, raw);
    }

    lemma NotTracked(name: Name)
      requires Valid()
      ensures name in raws <==> name in known
    {
    }

    method Insert(name: Name, raw: LabelSelector, selector: Selector) returns (result: TrackResult)
      requires Valid() && name !in known && Canonicalizes(selector, raw) && AllKnown(raw)
      modifies this`known, this`raws, trie.trie.root.repr
      ensures fresh(trie.trie.root.repr - old(trie.trie.root.repr)) && result != UnknownOperator
      ensures result == Panicked <==> !Distinct(WordsForSelector(sort, selector))
      ensures result != Panicked ==> Valid() && raws == old(raws)[name := raw]
    {
      hide Consistent, Mirrors, Canonicalizes, Distinct, WordsForSelector;
      var panicked := InsertIntoTrie(name, raw, selector);
      if panicked {
        return Panicked;
      }
      Store(known[name := selector], raws[name := raw]);
      return Tracked;
    }

    method InsertIntoTrie(name: Name, ghost raw: LabelSelector, selector: Selector) returns (panicked: bool)
      requires Valid() && name !in known && Canonicalizes(selector, raw) && AllKnown(raw)
      modifies trie.trie.root.repr
      ensures trie.Valid() && fresh(trie.trie.root.repr - old(trie.trie.root.repr))
      ensures panicked <==> !Distinct(WordsForSelector(sort, selector))
      ensures !panicked ==> Consistent(known[name := selector], raws[name := raw], sort)
      ensures !panicked ==> Mirrors(trie.trie.root.tree, known[name := selector], sort)
    {
      ghost var t := trie.trie.root.tree;
      var words := WordsForSelector(sort, selector);
      assert Distinct(words) ==> Faithful(selector, raw, sort);
      WordsStored(t, known, raws, sort, name);
      hide Mirrors, Faithful, Added, Consistent, WordsForSelector, Stored, Distinct;
      panicked := InsertWords(trie, words, name);
      if !panicked {
        Remember(t, trie.trie.root.tree, known, raws, sort, name, selector, raw);
      }
    }

    // What a query finds: exactly the tracked names whose selector matches the labels and repeats no key.
    method Query(labels: map<Key, string>) returns (names: seq<Name>)
      requires Valid()
      ensures Distinct(names)
      ensures forall name ::
        name in names <==> name in raws && RawMatches(raws[name], labels) && RepeatsNoKey(raws[name])
    {
      var labelSet := CreateSet(labels);
      var query := sort(ForSet(labelSet));
      var pairs := trie.Subsets(query);
      ghost var t := trie.trie.root.tree;
      SetSorted(labelSet, labels);
      forall name | name in known ensures InCanonicalOrder(known[name]) {
        assert Faithful(known[name], raws[name], sort);
        SelectorSorted(known[name], raws[name]);
      }
      forall pair | pair in pairs ensures pair.0 in known { YieldedIsTracked(t, known, sort, query, pair); }
      names := Filtered(pairs, labelSet);
      forall name
        ensures name in names <==> name in raws && RawMatches(raws[name], labels) && RepeatsNoKey(raws[name])
      {
        if name in known {
          assert Faithful(known[name], raws[name], sort);
          InPairsIffRead(t, known, sort, query, pairs, name);
          MissedIffRepeats(sort, known[name], labelSet, labels);
          CanonicalMatchIsMatch(known[name], raws[name], labelSet, labels);
          CanonicalRepeats(known[name], raws[name]);
        }
      }
    }

    // The names whose selector matches, once each: map, filter and deduplicate.
    method Filtered(pairs: seq<(Name, Empty)>, labelSet: Set) returns (names: seq<Name>)
      requires forall pair :: pair in pairs ==> pair.0 in known
      requires forall name :: name in known ==> InCanonicalOrder(known[name])
      requires SortedBy(PAIR_KEY, labelSet)
      ensures Distinct(names)
      ensures forall name :: name in names <==>
        InPairs(pairs, name) && name in known && SelectorMatches(known[name], labelSet)
    {
      hide InCanonicalOrder, SortedBy, SelectorMatches;
      names := [];
      var seen: set<Name> := {};
      for i := 0 to |pairs|
        invariant Distinct(names) && forall name :: name in seen <==> name in names
        invariant forall name :: name in names <==>
          InPairs(pairs[..i], name) && name in known && SelectorMatches(known[name], labelSet)
      {
        var name := pairs[i].0;
        assert pairs[i] in pairs;
        InPairsSnoc(pairs, i);
        var matches := Canonical.Matches(known[name], labelSet);
        if matches && name !in seen {
          seen := seen + {name};
          names := names + [name];
        }
      }
      assert pairs[..|pairs|] == pairs;
    }
  }

  ghost predicate InPairs(pairs: seq<(Name, Empty)>, name: Name) {
    exists i :: 0 <= i < |pairs| && pairs[i].0 == name
  }

  lemma InPairsSnoc(pairs: seq<(Name, Empty)>, i: nat)
    requires i < |pairs|
    ensures forall name :: InPairs(pairs[..i + 1], name) <==> InPairs(pairs[..i], name) || name == pairs[i].0
  {
    assert pairs[..i + 1] == pairs[..i] + [pairs[i]];
    forall name ensures InPairs(pairs[..i + 1], name) <==> InPairs(pairs[..i], name) || name == pairs[i].0 {
      if name == pairs[i].0 { assert pairs[..i + 1][i].0 == name; }
      if j :| 0 <= j < i && pairs[..i][j].0 == name { assert pairs[..i + 1][j].0 == name; }
      var t := pairs[..i + 1];
      if j :| 0 <= j < |t| && t[j].0 == name { assert j < i ==> pairs[..i][j].0 == name; }
    }
  }

  lemma YieldedIsTracked(t: Tree<Letter, map<Name, Empty>>, known: map<Name, Selector>,
                         sort: seq<Letter> -> Word<Letter>, query: Word<Letter>, pair: (Name, Empty))
    requires Mirrors(t, known, sort) && Yields(t, query, pair)
    ensures pair.0 in known
  {
    var word :| IsSubsequence(word, query) && InMap(Entry(t, word), pair);
    assert Stored(t, word, pair.0);
  }

  // A tracked name is yielded exactly when the query reads one of the words of its selector.
  lemma InPairsIffRead(t: Tree<Letter, map<Name, Empty>>, known: map<Name, Selector>,
                       sort: seq<Letter> -> Word<Letter>, query: Word<Letter>, pairs: seq<(Name, Empty)>, name: Name)
    requires Mirrors(t, known, sort) && name in known
    requires forall pair :: pair in pairs <==> Yields(t, query, pair)
    ensures InPairs(pairs, name) <==> SomeRead(WordsForSelector(sort, known[name]), query)
  {
    var words := WordsForSelector(sort, known[name]);
    if InPairs(pairs, name) {
      var i :| 0 <= i < |pairs| && pairs[i].0 == name;
      assert pairs[i] in pairs;
      var word :| IsSubsequence(word, query) && InMap(Entry(t, word), pairs[i]);
      assert Stored(t, word, name);
      var j :| 0 <= j < |words| && words[j] == word;
    }
    if SomeRead(words, query) {
      var j :| 0 <= j < |words| && IsSubsequence(words[j], query);
      assert Stored(t, words[j], name);
      var pair := (name, Empty.Empty);
      assert InMap(Entry(t, words[j]), pair);
      assert pair in pairs;
    }
  }

  // ----- histories -----

  datatype Op = TrackOp(name: Name, raw: LabelSelector) | UntrackOp(name: Name)

  // What is tracked after a history.
  ghost function RawsAfter(ops: seq<Op>): map<Name, LabelSelector> {
    if ops == [] then map[]
    else RawsNext(RawsAfter(ops[..|ops| - 1]), ops[|ops| - 1])
  }

  // No key twice among the In requirements and match labels, or among the Exists requirements.
  ghost predicate RepeatsNoKey(raw: LabelSelector) {
    && Only(In, raw.matchExpressions) && Only(Exists, raw.matchExpressions)
    && forall expr :: expr in raw.matchExpressions && expr.operator == In ==> expr.key !in raw.matchLabels
  }

  // The requirements under an operator are on different keys.
  ghost predicate Only(op: Operator, exprs: seq<Requirement>) {
    forall i, j :: 0 <= i < j < |exprs| && exprs[i].operator == op && exprs[j].operator == op ==>
      exprs[i].key != exprs[j].key
  }

  // No value twice within an In requirement.
  ghost predicate RepeatsNoValue(raw: LabelSelector) {
    forall expr :: expr in raw.matchExpressions && expr.operator == In ==> Distinct(expr.values)
  }

  // Both can be told from the selector as given.
  lemma CanonicalRepeats(selector: Selector, raw: LabelSelector)
    requires Canonicalizes(selector, raw)
    ensures NoRepeats(selector) <==> RepeatsNoKey(raw)
    ensures DistinctValues(selector.keyIn) <==> RepeatsNoValue(raw)
  {
    var order :| Enumerates(order, raw.matchLabels) && SortedForm(selector, Gathered(raw, order));
    ValuesRepeats(selector, raw);
    hide Canonicalizes, Distinct, Only, DistinctIn, DistinctExist, KeysUnder;
    GatheredRepeats(raw, order);
    MappedIn(selector.keyIn);
    MappedExist(selector.keyExist);
    SortedKeys(VALUES_KEY, Gathered(raw, order).keyIn);
    SortedKeys(KEY_KEY, Gathered(raw, order).keyExist);
    RepeatsByKeys(raw, order);
  }

  lemma GatheredRepeats(raw: LabelSelector, order: seq<Key>)
    requires Enumerates(order, raw.matchLabels)
    ensures Map(VALUES_KEY, Gathered(raw, order).keyIn) == order + KeysUnder(In, raw.matchExpressions)
    ensures Map(KEY_KEY, Gathered(raw, order).keyExist) == KeysUnder(Exists, raw.matchExpressions)
  {
    ValuesForKeys(In, raw.matchExpressions);
    KeysForKeys(Exists, raw.matchExpressions);
    hide KeysUnder, ValuesFor, KeysFor;
    assert Map(VALUES_KEY, LabelReqmts(order, raw.matchLabels)) == order;
  }

  lemma RepeatsByKeys(raw: LabelSelector, order: seq<Key>)
    requires Enumerates(order, raw.matchLabels)
    ensures Distinct(order + KeysUnder(In, raw.matchExpressions)) && Distinct(KeysUnder(Exists, raw.matchExpressions))
      <==> RepeatsNoKey(raw)
  {
    var exprs := raw.matchExpressions;
    DistinctConcat(order, KeysUnder(In, exprs));
    KeysUnderDistinct(In, exprs);
    KeysUnderDistinct(Exists, exprs);
    forall key
      ensures key in KeysUnder(In, exprs) <==> exists expr :: expr in exprs && expr.operator == In && expr.key == key
    {
      KeysUnderHas(In, exprs, key);
    }
    hide Only, Distinct;
    assert (forall a :: a in order ==> a !in KeysUnder(In, exprs)) <==>
      forall expr :: expr in exprs && expr.operator == In ==> expr.key !in raw.matchLabels;
  }

  lemma SortedKeys<T(!new)>(key: T -> Key, s: seq<T>)
    ensures Distinct(Map(key, ByKey(key, s))) <==> Distinct(Map(key, s))
  {
    ByKeySorts(key, s);
    MapPermutes(key, ByKey(key, s), s);
    DistinctPermutes(Map(key, ByKey(key, s)), Map(key, s));
  }

  lemma MappedIn(keyIn: seq<ValuesReqmt>)
    ensures DistinctIn(keyIn) <==> Distinct(Map(VALUES_KEY, keyIn))
  {
    var keys := Map(VALUES_KEY, keyIn);
    assert forall i :: 0 <= i < |keyIn| ==> keys[i] == keyIn[i].key;
    assert Distinct(keys) ==> DistinctIn(keyIn) by {
      if Distinct(keys) {
        forall i, j | 0 <= i < j < |keyIn| ensures keyIn[i].key != keyIn[j].key { assert keys[i] != keys[j]; }
      }
    }
  }

  lemma MappedExist(keyExist: seq<KeyReqmt>)
    ensures DistinctExist(keyExist) <==> Distinct(Map(KEY_KEY, keyExist))
  {
    var keys := Map(KEY_KEY, keyExist);
    assert forall i :: 0 <= i < |keyExist| ==> keys[i] == keyExist[i].key;
    assert Distinct(keys) ==> DistinctExist(keyExist) by {
      if Distinct(keys) {
        forall i, j | 0 <= i < j < |keyExist| ensures keyExist[i].key != keyExist[j].key { assert keys[i] != keys[j]; }
      }
    }
  }

  function KeysUnder(op: Operator, exprs: seq<Requirement>): seq<Key> {
    if exprs == [] then []
    else
      KeysUnder(op, exprs[..|exprs| - 1]) +
      (if exprs[|exprs| - 1].operator == op then [exprs[|exprs| - 1].key] else [])
  }

  lemma {:induction false} ValuesForKeys(op: Operator, exprs: seq<Requirement>)
    ensures Map(VALUES_KEY, ValuesFor(op, exprs)) == KeysUnder(op, exprs)
  {
    if exprs != [] { ValuesForKeys(op, exprs[..|exprs| - 1]); }
  }

  lemma {:induction false} KeysForKeys(op: Operator, exprs: seq<Requirement>)
    ensures Map(KEY_KEY, KeysFor(op, exprs)) == KeysUnder(op, exprs)
  {
    if exprs != [] { KeysForKeys(op, exprs[..|exprs| - 1]); }
  }

  lemma {:induction false} KeysUnderHas(op: Operator, exprs: seq<Requirement>, key: Key)
    ensures key in KeysUnder(op, exprs) <==> exists expr :: expr in exprs && expr.operator == op && expr.key == key
  {
    if exprs != [] {
      var before, last := exprs[..|exprs| - 1], exprs[|exprs| - 1];
      KeysUnderHas(op, before, key);
      assert exprs == before + [last];
    }
  }

  lemma OnlySnoc(op: Operator, before: seq<Requirement>, last: Requirement)
    ensures Only(op, before + [last]) <==> Only(op, before) && !(last.operator == op && exists expr ::
      expr in before && expr.operator == op && expr.key == last.key)
  {
    var exprs := before + [last];
    if Only(op, exprs) {
      forall i, j | 0 <= i < j < |before| && before[i].operator == op && before[j].operator == op
        ensures before[i].key != before[j].key
      {
        assert exprs[i].key != exprs[j].key;
      }
      forall i | 0 <= i < |before| && before[i].operator == op && last.operator == op
        ensures before[i].key != last.key
      {
        assert exprs[i].key != exprs[|before|].key;
      }
    }
  }

  lemma {:induction false} KeysUnderDistinct(op: Operator, exprs: seq<Requirement>)
    ensures Distinct(KeysUnder(op, exprs)) <==> Only(op, exprs)
  {
    if exprs != [] {
      var before, last := exprs[..|exprs| - 1], exprs[|exprs| - 1];
      KeysUnderDistinct(op, before);
      KeysUnderHas(op, before, last.key);
      OnlySnoc(op, before, last);
      assert exprs == before + [last];
      hide Only;
      if last.operator == op {
        DistinctConcat(KeysUnder(op, before), [last.key]);
        assert Distinct([last.key]);
        assert KeysUnder(op, exprs) == KeysUnder(op, before) + [last.key];
        hide Distinct;
        assert (forall key :: key in KeysUnder(op, before) ==> key !in [last.key]) <==>
          last.key !in KeysUnder(op, before);
      } else {
        assert KeysUnder(op, exprs) == KeysUnder(op, before);
      }
    }
  }

  lemma ValuesRepeats(selector: Selector, raw: LabelSelector)
    requires Canonicalizes(selector, raw)
    ensures DistinctValues(selector.keyIn) <==> RepeatsNoValue(raw)
  {
    CanonicalContents(selector, raw);
    hide Canonicalizes;
    if RepeatsNoValue(raw) {
      forall i | 0 <= i < |selector.keyIn| ensures Distinct(selector.keyIn[i].values) {
        var r := selector.keyIn[i];
        assert r in selector.keyIn;
        assert Requirement(r.key, In, r.values) in raw.matchExpressions ==> Distinct(r.values);
      }
    }
    if DistinctValues(selector.keyIn) {
      forall expr | expr in raw.matchExpressions && expr.operator == In ensures Distinct(expr.values) {
        assert ValuesReqmt(expr.key, expr.values) in selector.keyIn;
      }
    }
  }

  // No In requirement is without values.
  ghost predicate NamesValues(raw: LabelSelector) {
    forall expr :: expr in raw.matchExpressions && expr.operator == In ==> expr.values != []
  }

  lemma CanonicalValues(selector: Selector, raw: LabelSelector)
    requires Canonicalizes(selector, raw)
    ensures SomeValues(selector.keyIn) <==> NamesValues(raw)
  {
    CanonicalContents(selector, raw);
    hide Canonicalizes;
    if SomeValues(selector.keyIn) {
      forall expr | expr in raw.matchExpressions && expr.operator == In ensures expr.values != [] {
        assert ValuesReqmt(expr.key, expr.values) in selector.keyIn;
      }
    } else {
      var i :| 0 <= i < |selector.keyIn| && selector.keyIn[i].values == [];
      var r := selector.keyIn[i];
      assert r in selector.keyIn;
      assert Requirement(r.key, In, r.values) in raw.matchExpressions;
    }
  }

  // For a selector that repeats no key, Track panics exactly when an In requirement repeats a value and no In
  // requirement is without values.
  lemma PanicsIffValueRepeats(selector: Selector, raw: LabelSelector, sort: seq<Letter> -> Word<Letter>)
    requires IsSort(sort) && Canonicalizes(selector, raw) && RepeatsNoKey(raw)
    ensures !Distinct(WordsForSelector(sort, selector)) <==> !RepeatsNoValue(raw) && NamesValues(raw)
  {
    CanonicalRepeats(selector, raw);
    CanonicalValues(selector, raw);
    WordsDistinctIff(sort, selector);
  }

  // For any selector, repeated keys included, the same condition decides whether Track panics however the library's
  // sort treats letters that the comparison does not order. Where it does not hold, Track panics exactly when the
  // sort makes one word of two different choices of values.
  lemma PanicsUnderEverySortIff(selector: Selector, raw: LabelSelector)
    requires Canonicalizes(selector, raw)
    ensures (forall sort :: IsSort(sort) ==> !Distinct(WordsForSelector(sort, selector))) <==>
      !RepeatsNoValue(raw) && NamesValues(raw)
    ensures forall sort :: !Distinct(WordsForSelector(sort, selector)) <==>
      (!RepeatsNoValue(raw) && NamesValues(raw)) || Collide(sort, selector)
  {
    CanonicalRepeats(selector, raw);
    CanonicalValues(selector, raw);
    AlwaysRepeatsIff(selector);
    hide Canonicalizes, Collide, WordsForSelector, RepeatsNoValue, DistinctValues;
    forall sort
      ensures !Distinct(WordsForSelector(sort, selector)) <==>
        (!RepeatsNoValue(raw) && NamesValues(raw)) || Collide(sort, selector)
    {
      WordsRepeatIff(sort, selector);
    }
  }

  ghost predicate WellFormed(op: Op) {
    op.TrackOp? ==> RepeatsNoKey(op.raw) && RepeatsNoValue(op.raw)
  }

  // Any history, until it panics. One of well-formed selectors never does, and queries afterwards miss nothing.
  method Replay(ops: seq<Op>, sort: seq<Letter> -> Word<Letter>) returns (index: Selectors, panicked: bool)
    requires IsSort(sort)
    ensures (forall i :: 0 <= i < |ops| ==> WellFormed(ops[i])) ==> !panicked
    ensures !panicked ==> index.Valid() && index.raws == RawsAfter(ops)
  {
    index := new Selectors(sort);
    panicked := false;
    for i := 0 to |ops|
      invariant index.Valid() && index.raws == RawsAfter(ops[..i]) && index.sort == sort
      invariant fresh(index) && fresh(index.trie.trie.root.repr)
    {
      assert ops[..i + 1][..i] == ops[..i];
      panicked := Perform(index, ops[i]);
      if panicked {
        return;
      }
    }
    assert ops[..|ops|] == ops;
  }

  ghost function RawsNext(before: map<Name, LabelSelector>, op: Op): map<Name, LabelSelector> {
    match op
    case TrackOp(name, raw) => if AllKnown(raw) then before[name := raw] else before - {name}
    case UntrackOp(name) => before - {name}
  }

  method Perform(index: Selectors, op: Op) returns (panicked: bool)
    requires index.Valid()
    modifies index`known, index`raws, index.trie.trie.root.repr
    ensures fresh(index.trie.trie.root.repr - old(index.trie.trie.root.repr))
    ensures WellFormed(op) ==> !panicked
    ensures !panicked ==> index.Valid() && index.raws == RawsNext(old(index.raws), op)
  {
    assert IsSort(index.sort);
    hide Consistent, Mirrors, IsSort, Canonicalizes, RepeatsNoKey, RepeatsNoValue, WordsForSelector;
    match op {
      case TrackOp(name, raw) =>
        var result;
        ghost var selector;
        result, selector := index.Track(name, raw);
        if result != UnknownOperator && WellFormed(op) {
          PanicsIffValueRepeats(selector, raw, index.sort);
        }
        panicked := result == Panicked;
      case UntrackOp(name) =>
        var existed := index.Untrack(name);
        panicked := false;
    }
  }
}
