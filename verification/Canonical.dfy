/**
 Canonical forms of label selectors and label sets, and the merge join that matches one against the other
 (util/labelindex/canonical, util/sort/sort.go). A map is iterated in an order nobody chooses.
 */
module Canonical {
  import opened Common

  type Key = string

  // Go's < on strings; a char stands for a byte.
  predicate Below(a: Key, b: Key) {
    b != [] && (a == [] || (if a[0] != b[0] then a[0] < b[0] else Below(a[1..], b[1..])))
  }

  lemma {:induction false} BelowIsTotal(a: Key, b: Key)
    ensures Below(a, b) ==> !Below(b, a) && a != b
    ensures Below(a, b) || Below(b, a) || a == b
  {
    if a != [] && b != [] {
      BelowIsTotal(a[1..], b[1..]);
      assert a == [a[0]] + a[1..] && b == [b[0]] + b[1..];
    }
  }

  lemma {:induction false} BelowTransitive(a: Key, b: Key, c: Key)
    requires Below(a, b) && Below(b, c)
    ensures Below(a, c)
  {
    if a != [] && a[0] == b[0] == c[0] { BelowTransitive(a[1..], b[1..], c[1..]); }
  }

  // ----- sorting by key -----

  ghost predicate SortedBy<T(!new)>(key: T -> Key, s: seq<T>) {
    forall i, j :: 0 <= i < j < |s| ==> !Below(key(s[j]), key(s[i]))
  }

  function ByKey<T>(key: T -> Key, s: seq<T>): seq<T> {
    Sort((a: T, b: T) => Below(key(a), key(b)), s)
  }

  lemma ByKeySorts<T(!new)>(key: T -> Key, s: seq<T>)
    ensures multiset(ByKey(key, s)) == multiset(s) && SortedBy(key, ByKey(key, s))
    ensures |ByKey(key, s)| == |s|
  {
    var less := (a: T, b: T) => Below(key(a), key(b));
    forall x, y ensures less(x, y) ==> !less(y, x) { BelowIsTotal(key(x), key(y)); }
    forall x, y, z ensures less(x, z) ==> less(x, y) || less(y, z) {
      if less(x, z) && !less(x, y) {
        BelowIsTotal(key(x), key(y));
        if key(x) != key(y) { BelowTransitive(key(y), key(x), key(z)); }
      }
    }
    SortSorts(less, s);
    assert |multiset(ByKey(key, s))| == |multiset(s)|;
  }

  // ----- the merge join -----

  // The first element with a key, if any.
  function First<T>(key: T -> Key, s: seq<T>, k: Key): Option<T> {
    if s == [] then None else if key(s[0]) == k then Some(s[0]) else First(key, s[1..], k)
  }

  lemma {:induction false} FirstFound<T>(key: T -> Key, s: seq<T>, k: Key)
    ensures First(key, s, k).Some? <==> exists i :: 0 <= i < |s| && key(s[i]) == k
    ensures First(key, s, k).Some? ==> First(key, s, k).value in s && key(First(key, s, k).value) == k
  {
    if s != [] && key(s[0]) != k {
      FirstFound(key, s[1..], k);
      if i :| 0 <= i < |s| && key(s[i]) == k { assert s[1..][i - 1] == s[i]; }
    } else if s != [] {
      assert key(s[0]) == k;
    }
  }

  // Skipping elements with smaller keys does not lose a match.
  lemma {:induction false} FirstAfter<T(!new)>(key: T -> Key, s: seq<T>, n: nat, k: Key)
    requires n <= |s| && forall i :: 0 <= i < n ==> Below(key(s[i]), k)
    ensures First(key, s, k) == First(key, s[n..], k)
  {
    if n > 0 {
      BelowIsTotal(key(s[0]), k);
      FirstAfter(key, s[1..], n - 1, k);
      assert s[1..][n - 1..] == s[n..];
    }
  }

  lemma NoneBelow<T(!new)>(key: T -> Key, s: seq<T>, k: Key)
    requires SortedBy(key, s) && s != [] && Below(k, key(s[0]))
    ensures First(key, s, k) == None
  {
    FirstFound(key, s, k);
    forall i | 0 <= i < |s| ensures key(s[i]) != k { BelowIsTotal(k, key(s[0])); }
  }

  // The elements of right are only ever dropped for being below the current key, so left may repeat keys.
  method LeftZip<L(!new), R(!new)>(left: seq<L>, leftKey: L -> Key, right: seq<R>, rightKey: R -> Key)
    returns (items: seq<(L, Option<R>)>)
    requires SortedBy(leftKey, left) && SortedBy(rightKey, right)
    ensures |items| == |left|
    ensures forall i :: 0 <= i < |left| ==> items[i] == (left[i], First(rightKey, right, leftKey(left[i])))
  {
    items := [];
    var n := 0;
    for i := 0 to |left|
      invariant |items| == i && n <= |right|
      invariant forall j :: 0 <= j < i ==> items[j] == (left[j], First(rightKey, right, leftKey(left[j])))
      invariant forall j, m :: 0 <= j < n && i <= m < |left| ==> Below(rightKey(right[j]), leftKey(left[m]))
    {
      var k := leftKey(left[i]);
      var item := None;
      while n < |right|
        invariant n <= |right| && item == None
        invariant forall j, m :: 0 <= j < n && i <= m < |left| ==> Below(rightKey(right[j]), leftKey(left[m]))
      {
        var rightHead := rightKey(right[n]);
        if Below(rightHead, k) {
          BelowLater(leftKey, left, i, rightHead);
          n := n + 1;
          continue;
        }
        if rightHead == k {
          item := Some(right[n]);
        }
        break;
      }
      FirstFrom(rightKey, right, n, k);
      items := items + [(left[i], item)];
    }
  }

  lemma BelowLater<L(!new)>(key: L -> Key, left: seq<L>, i: nat, k: Key)
    requires SortedBy(key, left) && i < |left| && Below(k, key(left[i]))
    ensures forall m :: i <= m < |left| ==> Below(k, key(left[m]))
  {
    forall m | i <= m < |left| ensures Below(k, key(left[m])) {
      BelowIsTotal(key(left[i]), key(left[m]));
      if key(left[m]) != key(left[i]) { BelowTransitive(k, key(left[i]), key(left[m])); }
    }
  }

  lemma FirstFrom<T(!new)>(key: T -> Key, s: seq<T>, n: nat, k: Key)
    requires SortedBy(key, s) && n <= |s| && forall i :: 0 <= i < n ==> Below(key(s[i]), k)
    requires n < |s| ==> !Below(key(s[n]), k)
    ensures First(key, s, k) == if n < |s| && key(s[n]) == k then Some(s[n]) else None
  {
    FirstAfter(key, s, n, k);
    if n < |s| && key(s[n]) != k {
      BelowIsTotal(key(s[n]), k);
      NoneBelow(key, s[n..], k);
    }
  }

  // ----- label sets -----

  datatype KvPair = KvPair(key: Key, value: string)

  type Set = seq<KvPair>

  const PAIR_KEY := (pair: KvPair) => pair.key

  // The pairs of a map, each key once, in order of keys.
  ghost predicate Represents(set_: Set, raw: map<Key, string>) {
    && (forall i, j :: 0 <= i < j < |set_| ==> Below(set_[i].key, set_[j].key))
    && (forall pair :: pair in set_ <==> pair.key in raw && raw[pair.key] == pair.value)
  }

  method CreateSet(raw: map<Key, string>) returns (set_: Set)
    ensures Represents(set_, raw)
  {
    var pairs: seq<KvPair> := [];
    var rest := raw.Keys;
    while rest != {}
      invariant rest <= raw.Keys
      invariant forall pair :: pair in pairs <==> pair.key in raw && pair.key !in rest && raw[pair.key] == pair.value
      invariant Distinct(pairs)
    {
      var key :| key in rest;
      rest := rest - {key};
      pairs := pairs + [KvPair(key, raw[key])];
    }
    set_ := ByKey(PAIR_KEY, pairs);
    SortedSet(pairs, raw);
  }

  lemma SortedSet(pairs: seq<KvPair>, raw: map<Key, string>)
    requires forall pair :: pair in pairs <==> pair.key in raw && raw[pair.key] == pair.value
    requires Distinct(pairs)
    ensures Represents(ByKey(PAIR_KEY, pairs), raw)
  {
    var set_ := ByKey(PAIR_KEY, pairs);
    ByKeySorts(PAIR_KEY, pairs);
    forall pair ensures pair in set_ <==> pair in pairs { assert pair in multiset(set_) <==> pair in multiset(pairs); }
    DistinctPermutes(pairs, set_);
    forall i, j | 0 <= i < j < |set_| ensures Below(set_[i].key, set_[j].key) {
      BelowIsTotal(set_[i].key, set_[j].key);
      assert set_[i] in pairs && set_[j] in pairs && set_[i] != set_[j];
    }
  }

  // ----- selectors -----

  datatype Operator = In | NotIn | Exists | DoesNotExist | Other(name: string)

  datatype Requirement = Requirement(key: Key, operator: Operator, values: seq<string>)

  datatype LabelSelector = LabelSelector(matchLabels: map<Key, string>, matchExpressions: seq<Requirement>)

  datatype ValuesReqmt = ValuesReqmt(key: Key, values: seq<string>)

  datatype KeyReqmt = KeyReqmt(key: Key)

  datatype Selector = Selector(
    keyIn: seq<ValuesReqmt>, keyExist: seq<KeyReqmt>, keyNotIn: seq<ValuesReqmt>, keyNotExist: seq<KeyReqmt>)

  const VALUES_KEY := (reqmt: ValuesReqmt) => reqmt.key
  const KEY_KEY := (reqmt: KeyReqmt) => reqmt.key

  // Kubernetes' meaning of a requirement, and of a selector.
  predicate RequirementMet(expr: Requirement, labels: map<Key, string>) {
    match expr.operator
    case In => expr.key in labels && labels[expr.key] in expr.values
    case NotIn => expr.key in labels ==> labels[expr.key] !in expr.values
    case Exists => expr.key in labels
    case DoesNotExist => expr.key !in labels
    case Other(_) => false
  }

  ghost predicate RawMatches(raw: LabelSelector, labels: map<Key, string>) {
    && (forall key :: key in raw.matchLabels ==> key in labels && labels[key] == raw.matchLabels[key])
    && (forall expr :: expr in raw.matchExpressions ==> RequirementMet(expr, labels))
  }

  predicate Known(expr: Requirement) {
    !expr.operator.Other?
  }

  function LabelReqmts(order: seq<Key>, matchLabels: map<Key, string>): seq<ValuesReqmt>
    requires forall key :: key in order ==> key in matchLabels
  {
    seq(|order|, i requires 0 <= i < |order| => ValuesReqmt(order[i], [matchLabels[order[i]]]))
  }

  // The requirements under an operator, in their order.
  function ValuesFor(op: Operator, exprs: seq<Requirement>): seq<ValuesReqmt> {
    if exprs == [] then []
    else
      ValuesFor(op, exprs[..|exprs| - 1]) +
      (var expr := exprs[|exprs| - 1]; if expr.operator == op then [ValuesReqmt(expr.key, expr.values)] else [])
  }

  function KeysFor(op: Operator, exprs: seq<Requirement>): seq<KeyReqmt> {
    if exprs == [] then []
    else
      KeysFor(op, exprs[..|exprs| - 1]) +
      (var expr := exprs[|exprs| - 1]; if expr.operator == op then [KeyReqmt(expr.key)] else [])
  }

  ghost predicate Enumerates(order: seq<Key>, matchLabels: map<Key, string>) {
    Distinct(order) && forall key :: key in order <==> key in matchLabels
  }

  // The requirements in the order they are gathered, before sorting.
  ghost function Gathered(raw: LabelSelector, order: seq<Key>): Selector
    requires Enumerates(order, raw.matchLabels)
  {
    Selector(
      LabelReqmts(order, raw.matchLabels) + ValuesFor(In, raw.matchExpressions),
      KeysFor(Exists, raw.matchExpressions),
      ValuesFor(NotIn, raw.matchExpressions),
      KeysFor(DoesNotExist, raw.matchExpressions))
  }

  // A canonical form of a selector: its requirements by kind, each kind in order of keys.
  ghost predicate Canonicalizes(selector: Selector, raw: LabelSelector) {
    exists order :: Enumerates(order, raw.matchLabels) && SortedForm(selector, Gathered(raw, order))
  }

  ghost predicate SortedForm(selector: Selector, gathered: Selector) {
    && selector.keyIn == ByKey(VALUES_KEY, gathered.keyIn)
    && selector.keyExist == ByKey(KEY_KEY, gathered.keyExist)
    && selector.keyNotIn == ByKey(VALUES_KEY, gathered.keyNotIn)
    && selector.keyNotExist == ByKey(KEY_KEY, gathered.keyNotExist)
  }

  ghost predicate InCanonicalOrder(selector: Selector) {
    && SortedBy(VALUES_KEY, selector.keyIn) && SortedBy(KEY_KEY, selector.keyExist)
    && SortedBy(VALUES_KEY, selector.keyNotIn) && SortedBy(KEY_KEY, selector.keyNotExist)
  }

  // None stands for the error of an operator that is not one of the four.
  method CreateSelector(raw: LabelSelector) returns (result: Option<Selector>)
    ensures result == None <==> exists expr :: expr in raw.matchExpressions && !Known(expr)
    ensures result.Some? ==> Canonicalizes(result.value, raw)
  {
    var keyIn: seq<ValuesReqmt>, keyExist: seq<KeyReqmt>, keyNotIn: seq<ValuesReqmt>, keyNotExist: seq<KeyReqmt> :=
      [], [], [], [];
    ghost var order := [];
    var rest := raw.matchLabels.Keys;
    while rest != {}
      invariant rest <= raw.matchLabels.Keys && Distinct(order)
      invariant forall key :: key in order <==> key in raw.matchLabels && key !in rest
      invariant keyIn == LabelReqmts(order, raw.matchLabels)
    {
      var key :| key in rest;
      rest := rest - {key};
      order := order + [key];
      keyIn := keyIn + [ValuesReqmt(key, [raw.matchLabels[key]])];
    }
    ghost var labels := keyIn;
    var exprs := raw.matchExpressions;
    for i := 0 to |exprs|
      invariant keyIn == labels + ValuesFor(In, exprs[..i]) && keyNotIn == ValuesFor(NotIn, exprs[..i])
      invariant keyExist == KeysFor(Exists, exprs[..i]) && keyNotExist == KeysFor(DoesNotExist, exprs[..i])
      invariant forall j :: 0 <= j < i ==> Known(exprs[j])
    {
      var expr := exprs[i];
      assert exprs[..i + 1][..i] == exprs[..i];
      match expr.operator
      case In => keyIn := keyIn + [ValuesReqmt(expr.key, expr.values)];
      case NotIn => keyNotIn := keyNotIn + [ValuesReqmt(expr.key, expr.values)];
      case Exists => keyExist := keyExist + [KeyReqmt(expr.key)];
      case DoesNotExist => keyNotExist := keyNotExist + [KeyReqmt(expr.key)];
      case Other(_) =>
        assert expr in raw.matchExpressions && !Known(expr);
        return None;
    }
    assert exprs[..|exprs|] == exprs;
    assert Gathered(raw, order) == Selector(keyIn, keyExist, keyNotIn, keyNotExist);
    result := Some(Selector(
      ByKey(VALUES_KEY, keyIn), ByKey(KEY_KEY, keyExist), ByKey(VALUES_KEY, keyNotIn), ByKey(KEY_KEY, keyNotExist)));
    assert SortedForm(result.value, Gathered(raw, order));
  }

  // ----- matching -----

  function PairFor(set_: Set, key: Key): Option<KvPair> {
    First(PAIR_KEY, set_, key)
  }

  predicate HasOneOf(item: (ValuesReqmt, Option<KvPair>)) {
    item.1.Some? && item.1.value.value in item.0.values
  }

  predicate HasNoneOf(item: (ValuesReqmt, Option<KvPair>)) {
    item.1.Some? ==> item.1.value.value !in item.0.values
  }

  // The conjunction over the four merge joins.
  ghost predicate SelectorMatches(selector: Selector, set_: Set) {
    && (forall i :: 0 <= i < |selector.keyIn| ==> HasOneOf((selector.keyIn[i], PairFor(set_, selector.keyIn[i].key))))
    && (forall i :: 0 <= i < |selector.keyNotIn| ==>
      HasNoneOf((selector.keyNotIn[i], PairFor(set_, selector.keyNotIn[i].key))))
    && (forall i :: 0 <= i < |selector.keyExist| ==> PairFor(set_, selector.keyExist[i].key).Some?)
    && (forall i :: 0 <= i < |selector.keyNotExist| ==> PairFor(set_, selector.keyNotExist[i].key).None?)
  }

  method Matches(selector: Selector, set_: Set) returns (matches: bool)
    requires InCanonicalOrder(selector) && SortedBy(PAIR_KEY, set_)
    ensures matches <==> SelectorMatches(selector, set_)
  {
    hide First, HasOneOf, HasNoneOf;
    var ins := LeftZip(selector.keyIn, VALUES_KEY, set_, PAIR_KEY);
    var notIns := LeftZip(selector.keyNotIn, VALUES_KEY, set_, PAIR_KEY);
    var exist := LeftZip(selector.keyExist, KEY_KEY, set_, PAIR_KEY);
    var notExist := LeftZip(selector.keyNotExist, KEY_KEY, set_, PAIR_KEY);
    matches :=
      && (forall i :: 0 <= i < |ins| ==> HasOneOf(ins[i]))
      && (forall i :: 0 <= i < |notIns| ==> HasNoneOf(notIns[i]))
      && (forall i :: 0 <= i < |exist| ==> exist[i].1.Some?)
      && (forall i :: 0 <= i < |notExist| ==> notExist[i].1.None?);
  }

  // ----- canonical matching is Kubernetes' matching -----

  lemma PairForLabel(set_: Set, labels: map<Key, string>, key: Key)
    requires Represents(set_, labels)
    ensures PairFor(set_, key) == if key in labels then Some(KvPair(key, labels[key])) else None
  {
    FirstFound(PAIR_KEY, set_, key);
    if key in labels {
      var pair := KvPair(key, labels[key]);
      assert pair in set_;
      var i :| 0 <= i < |set_| && set_[i] == pair;
      assert PAIR_KEY(set_[i]) == key;
    }
  }

  lemma SetSorted(set_: Set, labels: map<Key, string>)
    requires Represents(set_, labels)
    ensures SortedBy(PAIR_KEY, set_)
  {
    forall i, j | 0 <= i < j < |set_| ensures !Below(set_[j].key, set_[i].key) {
      BelowIsTotal(set_[i].key, set_[j].key);
    }
  }

  lemma SelectorSorted(selector: Selector, raw: LabelSelector)
    requires Canonicalizes(selector, raw)
    ensures InCanonicalOrder(selector)
  {
    var order :| Enumerates(order, raw.matchLabels) && SortedForm(selector, Gathered(raw, order));
    var gathered := Gathered(raw, order);
    ByKeySorts(VALUES_KEY, gathered.keyIn);
    ByKeySorts(VALUES_KEY, gathered.keyNotIn);
    ByKeySorts(KEY_KEY, gathered.keyExist);
    ByKeySorts(KEY_KEY, gathered.keyNotExist);
  }

  lemma {:induction false} ValuesForHas(op: Operator, exprs: seq<Requirement>, r: ValuesReqmt)
    ensures r in ValuesFor(op, exprs) <==> Requirement(r.key, op, r.values) in exprs
  {
    if exprs != [] {
      ValuesForHas(op, exprs[..|exprs| - 1], r);
      assert exprs == exprs[..|exprs| - 1] + [exprs[|exprs| - 1]];
    }
  }

  lemma {:induction false} KeysForHas(op: Operator, exprs: seq<Requirement>, r: KeyReqmt)
    ensures r in KeysFor(op, exprs) <==> exists expr :: expr in exprs && expr.key == r.key && expr.operator == op
  {
    if exprs != [] {
      KeysForHas(op, exprs[..|exprs| - 1], r);
      assert exprs == exprs[..|exprs| - 1] + [exprs[|exprs| - 1]];
    }
  }

  lemma SortedHas<T(!new)>(key: T -> Key, s: seq<T>, r: T)
    ensures r in ByKey(key, s) <==> r in s
  {
    ByKeySorts(key, s);
    assert r in multiset(ByKey(key, s)) <==> r in multiset(s);
  }

  // What a canonical form contains.
  lemma CanonicalContents(selector: Selector, raw: LabelSelector)
    requires Canonicalizes(selector, raw)
    ensures forall r :: r in selector.keyIn <==>
      || (r.key in raw.matchLabels && r.values == [raw.matchLabels[r.key]])
      || Requirement(r.key, In, r.values) in raw.matchExpressions
    ensures forall r :: r in selector.keyNotIn <==> Requirement(r.key, NotIn, r.values) in raw.matchExpressions
  {
    var order :| Enumerates(order, raw.matchLabels) && SortedForm(selector, Gathered(raw, order));
    forall r ensures r in selector.keyIn <==>
      || (r.key in raw.matchLabels && r.values == [raw.matchLabels[r.key]])
      || Requirement(r.key, In, r.values) in raw.matchExpressions
    {
      SortedHas(VALUES_KEY, Gathered(raw, order).keyIn, r);
      ValuesForHas(In, raw.matchExpressions, r);
      LabelReqmtsHas(order, raw.matchLabels, r);
    }
    forall r ensures r in selector.keyNotIn <==> Requirement(r.key, NotIn, r.values) in raw.matchExpressions {
      SortedHas(VALUES_KEY, Gathered(raw, order).keyNotIn, r);
      ValuesForHas(NotIn, raw.matchExpressions, r);
    }
  }

  lemma LabelReqmtsHas(order: seq<Key>, matchLabels: map<Key, string>, r: ValuesReqmt)
    requires Enumerates(order, matchLabels)
    ensures r in LabelReqmts(order, matchLabels) <==> r.key in matchLabels && r.values == [matchLabels[r.key]]
  {
    if r.key in matchLabels && r.values == [matchLabels[r.key]] {
      assert r.key in order;
      var i :| 0 <= i < |order| && order[i] == r.key;
      assert LabelReqmts(order, matchLabels)[i] == r;
    }
  }

  lemma CanonicalKeys(selector: Selector, raw: LabelSelector, r: KeyReqmt)
    requires Canonicalizes(selector, raw)
    ensures r in selector.keyExist <==>
      exists expr :: expr in raw.matchExpressions && expr.key == r.key && expr.operator == Exists
    ensures r in selector.keyNotExist <==>
      exists expr :: expr in raw.matchExpressions && expr.key == r.key && expr.operator == DoesNotExist
  {
    var order :| Enumerates(order, raw.matchLabels) && SortedForm(selector, Gathered(raw, order));
    SortedHas(KEY_KEY, Gathered(raw, order).keyExist, r);
    SortedHas(KEY_KEY, Gathered(raw, order).keyNotExist, r);
    KeysForHas(Exists, raw.matchExpressions, r);
    KeysForHas(DoesNotExist, raw.matchExpressions, r);
  }

  // The canonical forms match exactly when Kubernetes says the selector matches the labels, repeated keys and all.
  lemma CanonicalMatchIsMatch(selector: Selector, raw: LabelSelector, set_: Set, labels: map<Key, string>)
    requires Canonicalizes(selector, raw) && Represents(set_, labels)
    requires forall expr :: expr in raw.matchExpressions ==> Known(expr)
    ensures SelectorMatches(selector, set_) <==> RawMatches(raw, labels)
  {
    if RawMatches(raw, labels) { RawThenCanonical(selector, raw, set_, labels); }
    if SelectorMatches(selector, set_) { CanonicalThenRaw(selector, raw, set_, labels); }
  }

  lemma RawThenCanonical(selector: Selector, raw: LabelSelector, set_: Set, labels: map<Key, string>)
    requires Canonicalizes(selector, raw) && Represents(set_, labels) && RawMatches(raw, labels)
    ensures SelectorMatches(selector, set_)
  {
    CanonicalContents(selector, raw);
    hide Canonicalizes, Represents, First;
    forall i | 0 <= i < |selector.keyIn|
      ensures HasOneOf((selector.keyIn[i], PairFor(set_, selector.keyIn[i].key)))
    {
      var r := selector.keyIn[i];
      assert r in selector.keyIn;
      PairForLabel(set_, labels, r.key);
      assert Requirement(r.key, In, r.values) in raw.matchExpressions ==>
        RequirementMet(Requirement(r.key, In, r.values), labels);
    }
    forall i | 0 <= i < |selector.keyNotIn|
      ensures HasNoneOf((selector.keyNotIn[i], PairFor(set_, selector.keyNotIn[i].key)))
    {
      var r := selector.keyNotIn[i];
      assert r in selector.keyNotIn;
      PairForLabel(set_, labels, r.key);
      assert RequirementMet(Requirement(r.key, NotIn, r.values), labels);
    }
    forall i | 0 <= i < |selector.keyExist| ensures PairFor(set_, selector.keyExist[i].key).Some? {
      CanonicalKeys(selector, raw, selector.keyExist[i]);
      PairForLabel(set_, labels, selector.keyExist[i].key);
    }
    forall i | 0 <= i < |selector.keyNotExist| ensures PairFor(set_, selector.keyNotExist[i].key).None? {
      CanonicalKeys(selector, raw, selector.keyNotExist[i]);
      PairForLabel(set_, labels, selector.keyNotExist[i].key);
    }
  }

  lemma CanonicalThenRaw(selector: Selector, raw: LabelSelector, set_: Set, labels: map<Key, string>)
    requires Canonicalizes(selector, raw) && Represents(set_, labels) && SelectorMatches(selector, set_)
    requires forall expr :: expr in raw.matchExpressions ==> Known(expr)
    ensures RawMatches(raw, labels)
  {
    CanonicalContents(selector, raw);
    hide Canonicalizes, Represents, First;
    forall key | key in raw.matchLabels ensures key in labels && labels[key] == raw.matchLabels[key] {
      var r := ValuesReqmt(key, [raw.matchLabels[key]]);
      assert r in selector.keyIn;
      PairForLabel(set_, labels, key);
    }
    forall expr | expr in raw.matchExpressions ensures RequirementMet(expr, labels) {
      PairForLabel(set_, labels, expr.key);
      match expr.operator
      case In => assert ValuesReqmt(expr.key, expr.values) in selector.keyIn;
      case NotIn => assert ValuesReqmt(expr.key, expr.values) in selector.keyNotIn;
      case Exists =>
        CanonicalKeys(selector, raw, KeyReqmt(expr.key));
        assert KeyReqmt(expr.key) in selector.keyExist;
      case DoesNotExist =>
        CanonicalKeys(selector, raw, KeyReqmt(expr.key));
        assert KeyReqmt(expr.key) in selector.keyNotExist;
    }
  }
}
