/**
 Letters for label requirements (util/labelindex/matchable/matchable.go): the words a selector is stored under, the
 word a label set is looked up with, and when the second reads one of the first.
 */
module Matchable {
  import opened Common
  import opened Canonical
  import opened SetTrie

  // The presence of a key, or of a key with a value.
  datatype Letter = Letter(key: Key, present: bool, value: string)

  predicate Less(lhs: Letter, rhs: Letter) {
    if lhs.key != rhs.key then Below(lhs.key, rhs.key)
    else if lhs.present != rhs.present then !lhs.present
    else lhs.value != rhs.value
  }

  // Less puts two values of one key each before the other.
  lemma LessIsNoOrder()
    ensures exists a, b :: Less(a, b) && Less(b, a)
  {
    var a, b := Letter("k", false, "x"), Letter("k", false, "y");
    assert Less(a, b) && Less(b, a);
  }

  // sort.Slice over Less: it permutes, and sorts what Less does order.
  ghost predicate IsSort(sort: seq<Letter> -> Word<Letter>) {
    forall s :: Sorts(s, sort(s))
  }

  ghost predicate Sorts(s: seq<Letter>, word: Word<Letter>) {
    multiset(word) == multiset(s) && (OrderOn(Less, multiset(s)) ==> Sorted(Less, word))
  }

  // There is such a sort, so what is required of one below can be met.
  lemma SomeSort()
    ensures IsSort((s: seq<Letter>) => Sort(Less, s))
  {
    forall s ensures Sorts(s, Sort(Less, s)) { SortSorts(Less, s); }
  }

  // No two values of one key.
  ghost predicate OneValueEach(s: seq<Letter>) {
    && (forall a, b :: a in s && b in s && !a.present && !b.present && a.key == b.key ==> a == b)
    && (forall a :: a in s && a.present ==> a.value == "")
  }

  lemma OneValueOrdered(s: seq<Letter>)
    requires OneValueEach(s)
    ensures OrderOn(Less, multiset(s))
    ensures forall a, b :: a in s && b in s && a != b ==> Less(a, b) || Less(b, a)
  {
    forall x, y | x in multiset(s) && y in multiset(s) ensures Less(x, y) ==> !Less(y, x) {
      BelowIsTotal(x.key, y.key);
    }
    forall a, b | a in s && b in s && a != b ensures Less(a, b) || Less(b, a) {
      BelowIsTotal(a.key, b.key);
    }
    forall x, y, z | x in multiset(s) && y in multiset(s) && z in multiset(s) && Less(x, z)
      ensures Less(x, y) || Less(y, z)
    {
      BelowIsTotal(x.key, y.key);
      if Below(y.key, x.key) && Below(x.key, z.key) { BelowTransitive(y.key, x.key, z.key); }
    }
  }

  // ----- reading a sorted word in a sorted query -----

  lemma {:induction false} SubsequenceDistinct(word: Word<Letter>, query: Word<Letter>)
    requires IsSubsequence(word, query) && Distinct(query)
    ensures Distinct(word) && forall a :: a in word ==> a in query
  {
    if word != [] {
      var rest := query[1..];
      assert query == [query[0]] + rest;
      DistinctTail(query);
      if query[0] == word[0] && IsSubsequence(word[1..], rest) {
        SubsequenceDistinct(word[1..], rest);
        assert word == [word[0]] + word[1..];
        assert word[0] !in word[1..];
      } else {
        SubsequenceDistinct(word, rest);
      }
    }
  }

  lemma DistinctTail<T(!new)>(s: seq<T>)
    requires Distinct(s) && s != []
    ensures Distinct(s[1..]) && s[0] !in s[1..]
  {
    var t := s[1..];
    forall i, j | 0 <= i < j < |t| ensures t[i] != t[j] { assert s[i + 1] != s[j + 1]; }
  }

  lemma {:induction false} SortedSubsequence(word: Word<Letter>, query: Word<Letter>)
    requires Distinct(word) && Distinct(query) && Sorted(Less, word) && Sorted(Less, query)
    requires forall a :: a in word ==> a in query
    requires forall a, b :: a in query && b in query && a != b ==> Less(a, b) || Less(b, a)
    ensures IsSubsequence(word, query)
  {
    if word != [] {
      assert word[0] in query;
      var rest := query[1..];
      assert query == [query[0]] + rest;
      DistinctTail(query);
      assert Sorted(Less, rest) by {
        forall i, j | 0 <= i < j < |rest| ensures !Less(rest[j], rest[i]) { assert !Less(query[j + 1], query[i + 1]); }
      }
      if query[0] == word[0] {
        DistinctTail(word);
        assert word == [word[0]] + word[1..];
        assert Sorted(Less, word[1..]) by {
          forall i, j | 0 <= i < j < |word[1..]| ensures !Less(word[1..][j], word[1..][i]) {
            assert !Less(word[j + 1], word[i + 1]);
          }
        }
        SortedSubsequence(word[1..], rest);
      } else {
        var k :| 0 <= k < |query| && query[k] == word[0];
        assert !Less(query[k], query[0]);
        assert query[0] !in word by {
          forall j | 0 <= j < |word| ensures word[j] != query[0] { assert j > 0 ==> !Less(word[j], word[0]); }
        }
        SortedSubsequence(word, rest);
      }
    }
  }

  // ----- the query word of a label set -----

  function ForSet(set_: Set): seq<Letter> {
    if set_ == [] then []
    else [Letter(set_[0].key, true, ""), Letter(set_[0].key, false, set_[0].value)] + ForSet(set_[1..])
  }

  predicate Holds(a: Letter, labels: map<Key, string>) {
    a.key in labels && a.value == if a.present then "" else labels[a.key]
  }

  lemma {:induction false} ForSetLetters(set_: Set, a: Letter)
    ensures a in ForSet(set_) <==>
      exists i :: 0 <= i < |set_| && set_[i].key == a.key && a.value == if a.present then "" else set_[i].value
  {
    if set_ != [] {
      ForSetLetters(set_[1..], a);
      if i :| 0 < i < |set_| && set_[i].key == a.key && a.value == if a.present then "" else set_[i].value {
        assert set_[1..][i - 1] == set_[i];
      }
    }
  }

  lemma {:induction false} ForSetDistinct(set_: Set)
    requires forall i, j :: 0 <= i < j < |set_| ==> set_[i].key != set_[j].key
    ensures Distinct(ForSet(set_))
  {
    if set_ != [] {
      var rest := ForSet(set_[1..]);
      ForSetDistinct(set_[1..]);
      forall a | a in rest ensures a.key != set_[0].key { ForSetLetters(set_[1..], a); }
      var head := [Letter(set_[0].key, true, ""), Letter(set_[0].key, false, set_[0].value)];
      forall i, j | 0 <= i < j < |head + rest| ensures (head + rest)[i] != (head + rest)[j] {
        if i < 2 && j >= 2 { assert rest[j - 2] in rest; }
        if i >= 2 { assert rest[i - 2] != rest[j - 2]; }
      }
    }
  }

  // The query word of a label set: its letters, once each, in order.
  ghost predicate IsQuery(query: Word<Letter>, labels: map<Key, string>) {
    && Distinct(query) && Sorted(Less, query)
    && (forall a :: a in query <==> Holds(a, labels))
  }

  lemma SetLetterHolds(set_: Set, labels: map<Key, string>, a: Letter)
    requires Represents(set_, labels)
    ensures a in ForSet(set_) <==> Holds(a, labels)
  {
    ForSetLetters(set_, a);
    if a.key in labels {
      assert KvPair(a.key, labels[a.key]) in set_;
    }
    assert forall i :: 0 <= i < |set_| ==> set_[i] in set_;
  }

  lemma QueryWord(sort: seq<Letter> -> Word<Letter>, set_: Set, labels: map<Key, string>)
    requires IsSort(sort) && Represents(set_, labels)
    ensures IsQuery(sort(ForSet(set_)), labels)
  {
    var letters := ForSet(set_);
    forall i, j | 0 <= i < j < |set_| ensures set_[i].key != set_[j].key { BelowIsTotal(set_[i].key, set_[j].key); }
    ForSetDistinct(set_);
    forall a ensures a in letters <==> Holds(a, labels) { SetLetterHolds(set_, labels, a); }
    hide Represents, ForSet, Distinct;
    OneValueOrdered(letters);
    assert Sorts(letters, sort(letters));
    DistinctPermutes(letters, sort(letters));
    forall a ensures a in sort(letters) <==> a in letters {
      assert a in multiset(sort(letters)) <==> a in multiset(letters);
    }
  }

  // A word is read in a query exactly when it repeats no letter and all its letters are in the query.
  lemma ReadIff(sort: seq<Letter> -> Word<Letter>, letters: seq<Letter>, query: Word<Letter>, labels: map<Key, string>)
    requires IsSort(sort) && IsQuery(query, labels)
    ensures IsSubsequence(sort(letters), query) <==> Distinct(letters) && forall a :: a in letters ==> Holds(a, labels)
  {
    var word := sort(letters);
    assert Sorts(letters, word);
    DistinctPermutes(letters, word);
    forall a ensures a in word <==> a in letters { assert a in multiset(word) <==> a in multiset(letters); }
    if IsSubsequence(word, query) {
      SubsequenceDistinct(word, query);
    }
    if Distinct(letters) && forall a :: a in letters ==> Holds(a, labels) {
      OneValueOrdered(letters);
      OneValueOrdered(query);
      SortedSubsequence(word, query);
    }
  }

  // ----- the words of a selector -----

  // One word for each choice of a value in every In requirement, on top of the letters for Exists.
  function WordsFrom(sort: seq<Letter> -> Word<Letter>, keyExist: seq<KeyReqmt>, keyIn: seq<ValuesReqmt>,
                     base: seq<Letter>): seq<Word<Letter>>
    decreases |keyExist| + |keyIn|, 1, 0
  {
    if keyExist != [] then
      WordsFrom(sort, keyExist[1..], keyIn, base + [Letter(keyExist[0].key, true, "")])
    else if keyIn != [] then WordsForValues(sort, keyIn[0].key, keyIn[0].values, keyIn[1..], base)
    else [sort(base)]
  }

  function WordsForValues(sort: seq<Letter> -> Word<Letter>, key: Key, values: seq<string>, keyIn: seq<ValuesReqmt>,
                          base: seq<Letter>): seq<Word<Letter>>
    decreases |keyIn| + 1, 0, |values|
  {
    if values == [] then []
    else
      WordsFrom(sort, [], keyIn, base + [Letter(key, false, values[0])]) +
      WordsForValues(sort, key, values[1..], keyIn, base)
  }

  function WordsForSelector(sort: seq<Letter> -> Word<Letter>, selector: Selector): seq<Word<Letter>> {
    WordsFrom(sort, selector.keyExist, selector.keyIn, [])
  }

  // Whether the query of a label set reads some word of a list.
  ghost predicate SomeRead(words: seq<Word<Letter>>, query: Word<Letter>) {
    exists i :: 0 <= i < |words| && IsSubsequence(words[i], query)
  }

  lemma SomeReadConcat(x: seq<Word<Letter>>, y: seq<Word<Letter>>, query: Word<Letter>)
    ensures SomeRead(x + y, query) <==> SomeRead(x, query) || SomeRead(y, query)
  {
    if i :| 0 <= i < |x| && IsSubsequence(x[i], query) { assert (x + y)[i] == x[i]; }
    if i :| 0 <= i < |y| && IsSubsequence(y[i], query) { assert (x + y)[|x| + i] == y[i]; }
    if i :| 0 <= i < |x + y| && IsSubsequence((x + y)[i], query) && i >= |x| { assert y[i - |x|] == (x + y)[i]; }
  }

  function ExistLetters(keyExist: seq<KeyReqmt>): seq<Letter> {
    if keyExist == [] then [] else [Letter(keyExist[0].key, true, "")] + ExistLetters(keyExist[1..])
  }

  // The choice of values the labels make.
  function ChosenLetters(keyIn: seq<ValuesReqmt>, labels: map<Key, string>): seq<Letter> {
    if keyIn == [] then []
    else
      [Letter(keyIn[0].key, false, if keyIn[0].key in labels then labels[keyIn[0].key] else "")] +
      ChosenLetters(keyIn[1..], labels)
  }

  predicate InMet(keyIn: seq<ValuesReqmt>, labels: map<Key, string>) {
    forall i :: 0 <= i < |keyIn| ==> keyIn[i].key in labels && labels[keyIn[i].key] in keyIn[i].values
  }

  // Readable letters.
  ghost predicate Readable(letters: seq<Letter>, labels: map<Key, string>) {
    Distinct(letters) && forall a :: a in letters ==> Holds(a, labels)
  }

  lemma ReadableParts(x: seq<Letter>, y: seq<Letter>, labels: map<Key, string>)
    requires Readable(x + y, labels)
    ensures Readable(x, labels) && Readable(y, labels)
  {
    forall i, j | 0 <= i < j < |x| ensures x[i] != x[j] { assert (x + y)[i] != (x + y)[j]; }
    forall i, j | 0 <= i < j < |y| ensures y[i] != y[j] { assert (x + y)[|x| + i] != (x + y)[|x| + j]; }
    forall a | a in x ensures Holds(a, labels) { assert a in x + y; }
    forall a | a in y ensures Holds(a, labels) { assert a in x + y; }
  }

  // Some word is read exactly when the labels choose values and the letters of that choice can be read.
  lemma {:induction false} WordsRead(sort: seq<Letter> -> Word<Letter>, keyExist: seq<KeyReqmt>,
                                     keyIn: seq<ValuesReqmt>,
                                     base: seq<Letter>, query: Word<Letter>, labels: map<Key, string>)
    requires IsSort(sort) && IsQuery(query, labels)
    ensures SomeRead(WordsFrom(sort, keyExist, keyIn, base), query) <==>
      InMet(keyIn, labels) && Readable(base + ExistLetters(keyExist) + ChosenLetters(keyIn, labels), labels)
    decreases |keyExist| + |keyIn|, 1, 0
  {
    if keyExist != [] {
      var a := Letter(keyExist[0].key, true, "");
      WordsRead(sort, keyExist[1..], keyIn, base + [a], query, labels);
      assert base + [a] + ExistLetters(keyExist[1..]) == base + ExistLetters(keyExist);
    } else if keyIn != [] {
      assert base + ExistLetters([]) == base;
      ValuesRead(sort, keyIn, keyIn[0].values, base, query, labels);
    } else {
      ReadIff(sort, base, query, labels);
      assert base + ExistLetters([]) + ChosenLetters([], labels) == base;
      assert SomeRead([sort(base)], query) <==> IsSubsequence(sort(base), query) by {
        assert [sort(base)][0] == sort(base);
      }
    }
  }

  lemma {:induction false} ValuesRead(sort: seq<Letter> -> Word<Letter>, keyIn: seq<ValuesReqmt>, values: seq<string>,
                                      base: seq<Letter>, query: Word<Letter>, labels: map<Key, string>)
    requires IsSort(sort) && IsQuery(query, labels) && keyIn != []
    ensures SomeRead(WordsForValues(sort, keyIn[0].key, values, keyIn[1..], base), query) <==>
      && keyIn[0].key in labels && labels[keyIn[0].key] in values
      && InMet(keyIn[1..], labels) && Readable(base + ChosenLetters(keyIn, labels), labels)
    decreases |keyIn|, 0, |values|
  {
    var key := keyIn[0].key;
    if values != [] {
      var a := Letter(key, false, values[0]);
      var first := WordsFrom(sort, [], keyIn[1..], base + [a]);
      WordsRead(sort, [], keyIn[1..], base + [a], query, labels);
      ValuesRead(sort, keyIn, values[1..], base, query, labels);
      SomeReadConcat(first, WordsForValues(sort, key, values[1..], keyIn[1..], base), query);
      var chosen := ChosenLetters(keyIn[1..], labels);
      assert base + [a] + ExistLetters([]) + chosen == base + ([a] + chosen);
      if Readable(base + ([a] + chosen), labels) {
        assert a in base + ([a] + chosen);
        assert Holds(a, labels);
      }
      assert values == [values[0]] + values[1..];
    }
  }

  // ----- which selectors can be found -----

  ghost predicate DistinctIn(keyIn: seq<ValuesReqmt>) {
    forall i, j :: 0 <= i < j < |keyIn| ==> keyIn[i].key != keyIn[j].key
  }

  ghost predicate DistinctExist(keyExist: seq<KeyReqmt>) {
    forall i, j :: 0 <= i < j < |keyExist| ==> keyExist[i].key != keyExist[j].key
  }

  // No two In requirements (match labels included) on one key, and no two Exists requirements.
  ghost predicate NoRepeats(selector: Selector) {
    DistinctIn(selector.keyIn) && DistinctExist(selector.keyExist)
  }

  lemma {:induction false} ExistLettersAt(keyExist: seq<KeyReqmt>)
    ensures |ExistLetters(keyExist)| == |keyExist|
    ensures forall i :: 0 <= i < |keyExist| ==> ExistLetters(keyExist)[i] == Letter(keyExist[i].key, true, "")
  {
    if keyExist != [] { ExistLettersAt(keyExist[1..]); }
  }

  lemma {:induction false} ChosenLettersAt(keyIn: seq<ValuesReqmt>, labels: map<Key, string>)
    ensures |ChosenLetters(keyIn, labels)| == |keyIn|
    ensures forall i :: 0 <= i < |keyIn| ==>
      ChosenLetters(keyIn, labels)[i] ==
      Letter(keyIn[i].key, false, if keyIn[i].key in labels then labels[keyIn[i].key] else "")
  {
    if keyIn != [] { ChosenLettersAt(keyIn[1..], labels); }
  }

  predicate ExistMet(keyExist: seq<KeyReqmt>, labels: map<Key, string>) {
    forall i :: 0 <= i < |keyExist| ==> keyExist[i].key in labels
  }

  lemma ReadableIff(keyExist: seq<KeyReqmt>, keyIn: seq<ValuesReqmt>, labels: map<Key, string>)
    requires InMet(keyIn, labels)
    ensures Readable(ExistLetters(keyExist) + ChosenLetters(keyIn, labels), labels) <==>
      ExistMet(keyExist, labels) && DistinctExist(keyExist) && DistinctIn(keyIn)
  {
    var x, y := ExistLetters(keyExist), ChosenLetters(keyIn, labels);
    ExistLettersAt(keyExist);
    ChosenLettersAt(keyIn, labels);
    if Readable(x + y, labels) {
      ReadableParts(x, y, labels);
      forall i | 0 <= i < |keyExist| ensures keyExist[i].key in labels { assert x[i] in x; }
      forall i, j | 0 <= i < j < |keyExist| ensures keyExist[i].key != keyExist[j].key { assert x[i] != x[j]; }
      forall i, j | 0 <= i < j < |keyIn| ensures keyIn[i].key != keyIn[j].key { assert y[i] != y[j]; }
    }
    if ExistMet(keyExist, labels) && DistinctExist(keyExist) && DistinctIn(keyIn) {
      forall i, j | 0 <= i < j < |x + y| ensures (x + y)[i] != (x + y)[j] {}
      assert Distinct(x + y);
    }
  }

  // A selector is found for a label set exactly when its positive requirements are met and repeat no key.
  lemma FoundIff(sort: seq<Letter> -> Word<Letter>, selector: Selector, query: Word<Letter>, labels: map<Key, string>)
    requires IsSort(sort) && IsQuery(query, labels)
    ensures SomeRead(WordsForSelector(sort, selector), query) <==>
      InMet(selector.keyIn, labels) && ExistMet(selector.keyExist, labels) && NoRepeats(selector)
  {
    WordsRead(sort, selector.keyExist, selector.keyIn, [], query, labels);
    var letters := ExistLetters(selector.keyExist) + ChosenLetters(selector.keyIn, labels);
    assert [] + ExistLetters(selector.keyExist) + ChosenLetters(selector.keyIn, labels) == letters;
    if InMet(selector.keyIn, labels) { ReadableIff(selector.keyExist, selector.keyIn, labels); }
  }

  // So among the selectors that match, exactly those that repeat a key are missed.
  lemma MissedIffRepeats(sort: seq<Letter> -> Word<Letter>, selector: Selector, set_: Set, labels: map<Key, string>)
    requires IsSort(sort) && Represents(set_, labels)
    ensures SomeRead(WordsForSelector(sort, selector), sort(ForSet(set_))) && SelectorMatches(selector, set_) <==>
      SelectorMatches(selector, set_) && NoRepeats(selector)
  {
    QueryWord(sort, set_, labels);
    FoundIff(sort, selector, sort(ForSet(set_)), labels);
    if SelectorMatches(selector, set_) {
      forall i | 0 <= i < |selector.keyIn|
        ensures selector.keyIn[i].key in labels && labels[selector.keyIn[i].key] in selector.keyIn[i].values
      {
        PairForLabel(set_, labels, selector.keyIn[i].key);
        assert HasOneOf((selector.keyIn[i], PairFor(set_, selector.keyIn[i].key)));
      }
      forall i | 0 <= i < |selector.keyExist| ensures selector.keyExist[i].key in labels {
        PairForLabel(set_, labels, selector.keyExist[i].key);
      }
    }
  }

  // Two Exists requirements on one key match every label set that has it, and find none.
  lemma RepeatedExistsMissed(sort: seq<Letter> -> Word<Letter>, key: Key, value: string)
    requires IsSort(sort)
    ensures
      var selector := Selector([], [KeyReqmt(key), KeyReqmt(key)], [], []);
      var set_ := [KvPair(key, value)];
      SelectorMatches(selector, set_) && !SomeRead(WordsForSelector(sort, selector), sort(ForSet(set_)))
  {
    var selector, set_ := Selector([], [KeyReqmt(key), KeyReqmt(key)], [], []), [KvPair(key, value)];
    assert Represents(set_, map[key := value]);
    PairForLabel(set_, map[key := value], key);
    assert selector.keyExist[0].key == selector.keyExist[1].key;
    MissedIffRepeats(sort, selector, set_, map[key := value]);
  }

  // ----- when the words of a selector are distinct -----

  // A letter that a word can have got from the In requirements left.
  predicate FromReqmts(a: Letter, keyExist: seq<KeyReqmt>, keyIn: seq<ValuesReqmt>) {
    if a.present then KeyReqmt(a.key) in keyExist else exists i :: 0 <= i < |keyIn| && keyIn[i].key == a.key
  }

  lemma {:induction false} WordLetters(sort: seq<Letter> -> Word<Letter>, keyExist: seq<KeyReqmt>,
                                       keyIn: seq<ValuesReqmt>, base: seq<Letter>, word: Word<Letter>, a: Letter)
    requires IsSort(sort) && word in WordsFrom(sort, keyExist, keyIn, base)
    ensures a in base ==> a in word
    ensures a in word ==> a in base || FromReqmts(a, keyExist, keyIn)
    decreases |keyExist| + |keyIn|, 1, 0
  {
    if keyExist != [] {
      WordLetters(sort, keyExist[1..], keyIn, base + [Letter(keyExist[0].key, true, "")], word, a);
    } else if keyIn != [] {
      ValueWordLetters(sort, keyIn, keyIn[0].values, base, word, a);
    } else {
      assert Sorts(base, sort(base));
      assert a in multiset(sort(base)) <==> a in multiset(base);
    }
  }

  lemma {:induction false} ValueWordLetters(sort: seq<Letter> -> Word<Letter>, keyIn: seq<ValuesReqmt>,
                                            values: seq<string>, base: seq<Letter>, word: Word<Letter>, a: Letter)
    requires IsSort(sort) && keyIn != []
    requires word in WordsForValues(sort, keyIn[0].key, values, keyIn[1..], base)
    ensures a in base ==> a in word
    ensures a in word ==>
      a in base || FromReqmts(a, [], keyIn[1..]) || (a.key == keyIn[0].key && !a.present && a.value in values)
    ensures exists value :: value in values && Letter(keyIn[0].key, false, value) in word
    decreases |keyIn|, 0, |values|
  {
    var letter := Letter(keyIn[0].key, false, values[0]);
    if word in WordsFrom(sort, [], keyIn[1..], base + [letter]) {
      WordLetters(sort, [], keyIn[1..], base + [letter], word, a);
      WordLetters(sort, [], keyIn[1..], base + [letter], word, letter);
      assert values[0] in values && letter in word;
    } else {
      ValueWordLetters(sort, keyIn, values[1..], base, word, a);
    }
  }

  // Every In requirement lists each value once.
  ghost predicate DistinctValues(keyIn: seq<ValuesReqmt>) {
    forall i :: 0 <= i < |keyIn| ==> Distinct(keyIn[i].values)
  }

  ghost predicate NewKeys(base: seq<Letter>, keyIn: seq<ValuesReqmt>) {
    forall a, i :: a in base && !a.present && 0 <= i < |keyIn| ==> keyIn[i].key != a.key
  }

  lemma {:induction false} WordsDistinct(sort: seq<Letter> -> Word<Letter>, keyExist: seq<KeyReqmt>,
                                         keyIn: seq<ValuesReqmt>, base: seq<Letter>)
    requires IsSort(sort) && DistinctIn(keyIn) && DistinctValues(keyIn) && NewKeys(base, keyIn)
    ensures Distinct(WordsFrom(sort, keyExist, keyIn, base))
    decreases |keyExist| + |keyIn|, 1, 0
  {
    if keyExist != [] {
      WordsDistinct(sort, keyExist[1..], keyIn, base + [Letter(keyExist[0].key, true, "")]);
    } else if keyIn != [] {
      ValueWordsDistinct(sort, keyIn, keyIn[0].values, base);
    }
  }

  lemma {:induction false} ValueWordsDistinct(sort: seq<Letter> -> Word<Letter>, keyIn: seq<ValuesReqmt>,
                                              values: seq<string>, base: seq<Letter>)
    requires IsSort(sort) && keyIn != [] && DistinctIn(keyIn) && DistinctValues(keyIn) && NewKeys(base, keyIn)
    requires Distinct(values)
    ensures Distinct(WordsForValues(sort, keyIn[0].key, values, keyIn[1..], base))
    decreases |keyIn|, 0, |values|
  {
    if values != [] {
      var key, rest, a := keyIn[0].key, keyIn[1..], Letter(keyIn[0].key, false, values[0]);
      var first, others := WordsFrom(sort, [], rest, base + [a]), WordsForValues(sort, key, values[1..], rest, base);
      WordsDistinct(sort, [], rest, base + [a]);
      DistinctTail(values);
      ValueWordsDistinct(sort, keyIn, values[1..], base);
      forall word | word in first ensures word !in others {
        WordLetters(sort, [], rest, base + [a], word, a);
        if word in others { ValueWordLetters(sort, keyIn, values[1..], base, word, a); }
      }
      DistinctConcat(first, others);
    }
  }

  predicate SomeValues(keyIn: seq<ValuesReqmt>) {
    forall i :: 0 <= i < |keyIn| ==> keyIn[i].values != []
  }

  lemma {:induction false} WordsExist(sort: seq<Letter> -> Word<Letter>, keyExist: seq<KeyReqmt>,
                                      keyIn: seq<ValuesReqmt>, base: seq<Letter>)
    ensures WordsFrom(sort, keyExist, keyIn, base) != [] <==> SomeValues(keyIn)
    decreases |keyExist| + |keyIn|, 1, 0
  {
    if keyExist != [] {
      WordsExist(sort, keyExist[1..], keyIn, base + [Letter(keyExist[0].key, true, "")]);
    } else if keyIn != [] {
      ValueWordsExist(sort, keyIn, keyIn[0].values, base);
      if SomeValues(keyIn[1..]) && keyIn[0].values != [] {
        forall i | 0 <= i < |keyIn| ensures keyIn[i].values != [] { assert i > 0 ==> keyIn[1..][i - 1].values != []; }
      }
    }
  }

  lemma {:induction false} ValueWordsExist(sort: seq<Letter> -> Word<Letter>, keyIn: seq<ValuesReqmt>,
                                           values: seq<string>, base: seq<Letter>)
    requires keyIn != []
    ensures WordsForValues(sort, keyIn[0].key, values, keyIn[1..], base) != [] <==>
      values != [] && SomeValues(keyIn[1..])
    decreases |keyIn|, 0, |values|
  {
    if values != [] {
      WordsExist(sort, [], keyIn[1..], base + [Letter(keyIn[0].key, false, values[0])]);
      ValueWordsExist(sort, keyIn, values[1..], base);
    }
  }

  lemma {:induction false} ValueWordsHave(sort: seq<Letter> -> Word<Letter>, keyIn: seq<ValuesReqmt>,
                                          values: seq<string>, base: seq<Letter>, value: string, word: Word<Letter>)
    requires keyIn != [] && value in values
    requires word in WordsFrom(sort, [], keyIn[1..], base + [Letter(keyIn[0].key, false, value)])
    ensures word in WordsForValues(sort, keyIn[0].key, values, keyIn[1..], base)
  {
    if values[0] != value { ValueWordsHave(sort, keyIn, values[1..], base, value, word); }
  }

  lemma {:induction false} RepeatedValueRepeats(sort: seq<Letter> -> Word<Letter>, keyIn: seq<ValuesReqmt>,
                                                values: seq<string>, base: seq<Letter>)
    requires keyIn != [] && SomeValues(keyIn[1..]) && !Distinct(values)
    ensures !Distinct(WordsForValues(sort, keyIn[0].key, values, keyIn[1..], base))
  {
    var key, rest, v := keyIn[0].key, keyIn[1..], values[0];
    var first := WordsFrom(sort, [], rest, base + [Letter(key, false, v)]);
    var others := WordsForValues(sort, key, values[1..], rest, base);
    if v in values[1..] {
      WordsExist(sort, [], rest, base + [Letter(key, false, v)]);
      assert first[0] in first;
      ValueWordsHave(sort, keyIn, values[1..], base, v, first[0]);
    } else {
      var i, j :| 0 <= i < j < |values| && values[i] == values[j];
      assert values[1..][j - 1] == values[j] && i > 0 && values[1..][i - 1] == values[i];
      RepeatedValueRepeats(sort, keyIn, values[1..], base);
    }
    DistinctConcat(first, others);
  }

  lemma {:induction false} RepeatedWords(sort: seq<Letter> -> Word<Letter>, keyExist: seq<KeyReqmt>,
                                         keyIn: seq<ValuesReqmt>, base: seq<Letter>)
    requires SomeValues(keyIn) && !DistinctValues(keyIn)
    ensures !Distinct(WordsFrom(sort, keyExist, keyIn, base))
    decreases |keyExist| + |keyIn|
  {
    if keyExist != [] {
      RepeatedWords(sort, keyExist[1..], keyIn, base + [Letter(keyExist[0].key, true, "")]);
    } else {
      var key, rest, values := keyIn[0].key, keyIn[1..], keyIn[0].values;
      if !Distinct(values) {
        RepeatedValueRepeats(sort, keyIn, values, base);
      } else {
        var i :| 0 <= i < |keyIn| && !Distinct(keyIn[i].values);
        assert rest[i - 1] == keyIn[i];
        RepeatedWords(sort, [], rest, base + [Letter(key, false, values[0])]);
        DistinctConcat(WordsFrom(sort, [], rest, base + [Letter(key, false, values[0])]),
                       WordsForValues(sort, key, values[1..], rest, base));
      }
    }
  }

  // For a selector that repeats no key, the words are distinct exactly when no In requirement repeats a value, or
  // there are no words at all.
  lemma WordsDistinctIff(sort: seq<Letter> -> Word<Letter>, selector: Selector)
    requires IsSort(sort) && NoRepeats(selector)
    ensures Distinct(WordsForSelector(sort, selector)) <==>
      DistinctValues(selector.keyIn) || !SomeValues(selector.keyIn)
  {
    WordsExist(sort, selector.keyExist, selector.keyIn, []);
    if DistinctValues(selector.keyIn) {
      WordsDistinct(sort, selector.keyExist, selector.keyIn, []);
    } else if SomeValues(selector.keyIn) {
      RepeatedWords(sort, selector.keyExist, selector.keyIn, []);
    }
  }

  // ----- selectors that repeat a key -----

  // In place of a sort: the letters of a choice stay in the order of the requirements.
  const UNSORTED: seq<Letter> -> Word<Letter> := s => s

  lemma MapConcat<T, U>(f: T -> U, x: seq<T>, y: seq<T>)
    ensures Map(f, x + y) == Map(f, x) + Map(f, y)
  {
  }

  lemma {:induction false} WordsAreSorted(sort: seq<Letter> -> Word<Letter>, keyExist: seq<KeyReqmt>,
                                          keyIn: seq<ValuesReqmt>, base: seq<Letter>)
    ensures WordsFrom(sort, keyExist, keyIn, base) == Map(sort, WordsFrom(UNSORTED, keyExist, keyIn, base))
    decreases |keyExist| + |keyIn|, 1, 0
  {
    if keyExist != [] {
      WordsAreSorted(sort, keyExist[1..], keyIn, base + [Letter(keyExist[0].key, true, "")]);
    } else if keyIn != [] {
      ValueWordsAreSorted(sort, keyIn, keyIn[0].values, base);
    } else {
      assert UNSORTED(base) == base;
    }
  }

  lemma {:induction false} ValueWordsAreSorted(sort: seq<Letter> -> Word<Letter>, keyIn: seq<ValuesReqmt>,
                                               values: seq<string>, base: seq<Letter>)
    requires keyIn != []
    ensures WordsForValues(sort, keyIn[0].key, values, keyIn[1..], base) ==
      Map(sort, WordsForValues(UNSORTED, keyIn[0].key, values, keyIn[1..], base))
    decreases |keyIn|, 0, |values|
  {
    if values != [] {
      var key, rest, next := keyIn[0].key, keyIn[1..], base + [Letter(keyIn[0].key, false, values[0])];
      WordsAreSorted(sort, [], rest, next);
      ValueWordsAreSorted(sort, keyIn, values[1..], base);
      MapConcat(sort, WordsFrom(UNSORTED, [], rest, next), WordsForValues(UNSORTED, key, values[1..], rest, base));
    }
  }

  // The word is base and then one letter for each requirement.
  ghost predicate Follows(word: Word<Letter>, base: seq<Letter>, keyExist: seq<KeyReqmt>, keyIn: seq<ValuesReqmt>) {
    && |word| == |base| + |keyExist| + |keyIn| && base <= word
    && (forall j :: |base| <= j < |base| + |keyExist| ==> word[j] == Letter(keyExist[j - |base|].key, true, ""))
    && (forall j :: |base| + |keyExist| <= j < |word| ==>
      !word[j].present && word[j].key == keyIn[j - |base| - |keyExist|].key)
  }

  lemma {:induction false} ChoiceFollows(keyExist: seq<KeyReqmt>, keyIn: seq<ValuesReqmt>, base: seq<Letter>,
                                         word: Word<Letter>)
    requires word in WordsFrom(UNSORTED, keyExist, keyIn, base)
    ensures Follows(word, base, keyExist, keyIn)
    decreases |keyExist| + |keyIn|, 1, 0
  {
    if keyExist != [] {
      var next := base + [Letter(keyExist[0].key, true, "")];
      ChoiceFollows(keyExist[1..], keyIn, next, word);
      FollowsNext(word, base, next, keyExist, keyIn);
    } else if keyIn != [] {
      ValueChoiceFollows(keyIn, keyIn[0].values, base, word);
      var next := base + [word[|base|]];
      FollowsNext(word, base, next, [], keyIn);
    }
  }

  lemma FollowsNext(word: Word<Letter>, base: seq<Letter>, next: seq<Letter>, keyExist: seq<KeyReqmt>,
                    keyIn: seq<ValuesReqmt>)
    requires |next| == |base| + 1 && base <= next
    requires keyExist != [] ==>
      next[|base|] == Letter(keyExist[0].key, true, "") && Follows(word, next, keyExist[1..], keyIn)
    requires keyExist == [] ==> keyIn != [] && !next[|base|].present && next[|base|].key == keyIn[0].key
    requires keyExist == [] ==> Follows(word, next, [], keyIn[1..])
    ensures Follows(word, base, keyExist, keyIn)
  {
    assert word[|base|] == next[|base|];
  }

  lemma {:induction false} ValueChoiceFollows(keyIn: seq<ValuesReqmt>, values: seq<string>, base: seq<Letter>,
                                              word: Word<Letter>)
    requires keyIn != [] && word in WordsForValues(UNSORTED, keyIn[0].key, values, keyIn[1..], base)
    ensures |word| > |base| && !word[|base|].present && word[|base|].key == keyIn[0].key
    ensures word[|base|].value in values
    ensures Follows(word, base + [word[|base|]], [], keyIn[1..])
    decreases |keyIn|, 0, |values|
  {
    var next := base + [Letter(keyIn[0].key, false, values[0])];
    if word in WordsFrom(UNSORTED, [], keyIn[1..], next) {
      ChoiceFollows([], keyIn[1..], next, word);
      assert word[|base|] == next[|base|];
    } else {
      ValueChoiceFollows(keyIn, values[1..], base, word);
    }
  }

  // Different choices have different letters, in the order of the requirements.
  lemma {:induction false} ChoicesDistinct(keyExist: seq<KeyReqmt>, keyIn: seq<ValuesReqmt>, base: seq<Letter>)
    requires DistinctValues(keyIn)
    ensures Distinct(WordsFrom(UNSORTED, keyExist, keyIn, base))
    decreases |keyExist| + |keyIn|, 1, 0
  {
    if keyExist != [] {
      ChoicesDistinct(keyExist[1..], keyIn, base + [Letter(keyExist[0].key, true, "")]);
    } else if keyIn != [] {
      ValueChoicesDistinct(keyIn, keyIn[0].values, base);
    }
  }

  lemma {:induction false} ValueChoicesDistinct(keyIn: seq<ValuesReqmt>, values: seq<string>, base: seq<Letter>)
    requires keyIn != [] && DistinctValues(keyIn) && Distinct(values)
    ensures Distinct(WordsForValues(UNSORTED, keyIn[0].key, values, keyIn[1..], base))
    decreases |keyIn|, 0, |values|
  {
    if values != [] {
      var key, rest, next := keyIn[0].key, keyIn[1..], base + [Letter(keyIn[0].key, false, values[0])];
      var first := WordsFrom(UNSORTED, [], rest, next);
      var others := WordsForValues(UNSORTED, key, values[1..], rest, base);
      ChoicesDistinct([], rest, next);
      DistinctTail(values);
      ValueChoicesDistinct(keyIn, values[1..], base);
      forall word | word in first ensures word !in others {
        ChoiceFollows([], rest, next, word);
        assert word[|base|] == next[|base|];
        if word in others { ValueChoiceFollows(keyIn, values[1..], base, word); }
      }
      DistinctConcat(first, others);
    }
  }

  // Choices of the same letters are the same choice, when the letters of one can be ordered.
  lemma OrderedChoices(keyExist: seq<KeyReqmt>, keyIn: seq<ValuesReqmt>, x: Word<Letter>, y: Word<Letter>)
    requires Follows(x, [], keyExist, keyIn) && Follows(y, [], keyExist, keyIn)
    requires multiset(x) == multiset(y) && OrderOn(Less, multiset(x))
    ensures x == y
  {
    forall i | 0 <= i < |x| ensures x[i] == y[i] {
      if i >= |keyExist| {
        assert x[i].key == y[i].key && !x[i].present && !y[i].present;
        assert x[i] in multiset(x) && y[i] in multiset(y);
        assert Less(x[i], y[i]) ==> !Less(y[i], x[i]);
      }
    }
  }

  // A sort may leave alone what the comparison does not order.
  ghost function Lazily(s: seq<Letter>): Word<Letter> {
    if OrderOn(Less, multiset(s)) then Sort(Less, s) else s
  }

  lemma LazyWords(selector: Selector)
    ensures IsSort(s => Lazily(s))
    ensures DistinctValues(selector.keyIn) ==> Distinct(WordsForSelector(s => Lazily(s), selector))
  {
    var sort := s => Lazily(s);
    forall s ensures Sorts(s, sort(s)) { SortSorts(Less, s); }
    if DistinctValues(selector.keyIn) {
      var choices := WordsFrom(UNSORTED, selector.keyExist, selector.keyIn, []);
      ChoicesDistinct(selector.keyExist, selector.keyIn, []);
      WordsAreSorted(sort, selector.keyExist, selector.keyIn, []);
      forall i, j | 0 <= i < j < |choices| ensures sort(choices[i]) != sort(choices[j]) {
        ChoiceFollows(selector.keyExist, selector.keyIn, [], choices[i]);
        ChoiceFollows(selector.keyExist, selector.keyIn, [], choices[j]);
        if Lazily(choices[i]) == Lazily(choices[j]) {
          LazilyInjective(selector.keyExist, selector.keyIn, choices[i], choices[j]);
        }
      }
    }
  }

  lemma LazilyInjective(keyExist: seq<KeyReqmt>, keyIn: seq<ValuesReqmt>, x: Word<Letter>, y: Word<Letter>)
    requires Follows(x, [], keyExist, keyIn) && Follows(y, [], keyExist, keyIn) && Lazily(x) == Lazily(y)
    ensures x == y
  {
    SortSorts(Less, x);
    SortSorts(Less, y);
    hide Follows, Sort, OrderOn;
    if OrderOn(Less, multiset(x)) {
      OrderedChoices(keyExist, keyIn, x, y);
    }
  }

  // Repeated keys included: two words of a selector are the same however the sort treats what the comparison does
  // not order, exactly when some In requirement repeats a value and none is without values.
  lemma AlwaysRepeatsIff(selector: Selector)
    ensures (forall sort :: IsSort(sort) ==> !Distinct(WordsForSelector(sort, selector))) <==>
      !DistinctValues(selector.keyIn) && SomeValues(selector.keyIn)
  {
    LazyWords(selector);
    var lazy := s => Lazily(s);
    if DistinctValues(selector.keyIn) {
      assert IsSort(lazy) && Distinct(WordsForSelector(lazy, selector));
    } else if !SomeValues(selector.keyIn) {
      WordsExist(lazy, selector.keyExist, selector.keyIn, []);
      assert IsSort(lazy) && Distinct(WordsForSelector(lazy, selector));
    } else {
      forall sort: seq<Letter> -> Word<Letter> ensures !Distinct(WordsForSelector(sort, selector)) {
        RepeatedWords(sort, selector.keyExist, selector.keyIn, []);
      }
    }
  }

  // The letters of one way to choose a value in every In requirement.
  ghost predicate Choice(selector: Selector, word: Word<Letter>) {
    word in WordsForSelector(UNSORTED, selector)
  }

  // Whether two different choices come out as the same word.
  ghost predicate Collide(sort: seq<Letter> -> Word<Letter>, selector: Selector) {
    exists x, y :: Choice(selector, x) && Choice(selector, y) && x != y && sort(x) == sort(y)
  }

  // With a given sort, words are the same exactly when a value repeats, or two different choices collide.
  lemma WordsRepeatIff(sort: seq<Letter> -> Word<Letter>, selector: Selector)
    ensures !Distinct(WordsForSelector(sort, selector)) <==>
      (!DistinctValues(selector.keyIn) && SomeValues(selector.keyIn)) || Collide(sort, selector)
  {
    var choices, words := WordsForSelector(UNSORTED, selector), WordsForSelector(sort, selector);
    WordsAreSorted(sort, selector.keyExist, selector.keyIn, []);
    if x, y :| Choice(selector, x) && Choice(selector, y) && x != y && sort(x) == sort(y) {
      var i :| 0 <= i < |choices| && choices[i] == x;
      var j :| 0 <= j < |choices| && choices[j] == y;
      assert words[i] == words[j];
    } else if DistinctValues(selector.keyIn) {
      ChoicesDistinct(selector.keyExist, selector.keyIn, []);
      forall i, j | 0 <= i < j < |words| ensures words[i] != words[j] {
        assert choices[i] != choices[j] && Choice(selector, choices[i]) && Choice(selector, choices[j]);
      }
    } else if SomeValues(selector.keyIn) {
      RepeatedWords(sort, selector.keyExist, selector.keyIn, []);
    } else {
      WordsExist(sort, selector.keyExist, selector.keyIn, []);
    }
  }

  // A sort may also give one word for all orders of the same letters.
  ghost predicate Arranges(letters: multiset<Letter>, word: Word<Letter>) {
    multiset(word) == letters && (OrderOn(Less, letters) ==> Sorted(Less, word))
  }

  ghost function Arranged(letters: multiset<Letter>): Word<Letter>
    requires exists word :: Arranges(letters, word)
  {
    var word :| Arranges(letters, word);
    word
  }

  ghost function Alike(s: seq<Letter>): (word: Word<Letter>)
    ensures Sorts(s, word)
  {
    SortSorts(Less, s);
    assert Arranges(multiset(s), Sort(Less, s));
    Arranged(multiset(s))
  }

  // Some sort makes two words the same exactly when a value repeats, or two different choices have the same letters,
  // as when two In requirements on one key share two values.
  lemma SometimesRepeatsIff(selector: Selector)
    ensures (exists sort :: IsSort(sort) && !Distinct(WordsForSelector(sort, selector))) <==>
      || (!DistinctValues(selector.keyIn) && SomeValues(selector.keyIn))
      || exists x, y :: Choice(selector, x) && Choice(selector, y) && x != y && multiset(x) == multiset(y)
  {
    var alike := s => Alike(s);
    assert IsSort(alike);
    WordsRepeatIff(alike, selector);
    if sort :| IsSort(sort) && !Distinct(WordsForSelector(sort, selector)) {
      WordsRepeatIff(sort, selector);
      if x, y :| Choice(selector, x) && Choice(selector, y) && x != y && sort(x) == sort(y) {
        assert Sorts(x, sort(x)) && Sorts(y, sort(y));
      }
    }
    if x, y :| Choice(selector, x) && Choice(selector, y) && x != y && multiset(x) == multiset(y) {
      assert alike(x) == alike(y);
      assert Collide(alike, selector);
    }
  }
}
