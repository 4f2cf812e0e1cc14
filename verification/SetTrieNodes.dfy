/**
 The nodes of the set-trie (util/labelindex/settrie/trie.go) and the multimap over it
 (util/labelindex/settrie/multi.go), on the heap, proved against the tries of module SetTrie.
 */
module SetTrieNodes {
  import opened Common
  import opened SetTrie

  function WithChild<A, D>(t: Tree<A, D>, a: A): (r: Tree<A, D>)
    ensures a in r.children
  {
    if a in t.children then t else t.(children := t.children[a := Tree(None, map[])])
  }

  lemma EditThrough<A, D>(t: Tree<A, D>, word: Word<A>, edit: Option<D> -> Option<D>)
    requires word != []
    ensures var through := WithChild(t, word[0]);
      var edited := Edit(through.children[word[0]], word[1..], edit);
      Edit(t, word, edit) == through.(children := if SetTrie.Garbage(edited) then through.children - {word[0]}
                                                  else through.children[word[0] := edited])
  {
    var through := WithChild(t, word[0]);
    var edited := Edit(through.children[word[0]], word[1..], edit);
    assert t.children - {word[0]} == through.children - {word[0]};
    assert t.children[word[0] := edited] == through.children[word[0] := edited];
  }

  lemma SubsetsStart<A, D>(t: Tree<A, D>, query: Word<A>, prefix: Word<A>)
    ensures (if t.data.Some? then [(prefix, t.data.value)] else []) + SubsetsBelow(t, query[0..], prefix) ==
      Subsets(t, query, prefix)
  {
    assert query[0..] == query;
  }

  lemma SubsetsStep<A, D>(t: Tree<A, D>, query: Word<A>, i: nat, prefix: Word<A>, found: seq<(Word<A>, D)>,
                          below: seq<(Word<A>, D)>)
    requires i < |query| && found + SubsetsBelow(t, query[i..], prefix) == Subsets(t, query, prefix)
    requires below ==
      if query[i] in t.children then Subsets(t.children[query[i]], query[i + 1..], prefix + [query[i]]) else []
    ensures found + below + SubsetsBelow(t, query[i + 1..], prefix) == Subsets(t, query, prefix)
  {
    assert query[i..][1..] == query[i + 1..];
    assert SubsetsBelow(t, query[i..], prefix) == below + SubsetsBelow(t, query[i + 1..], prefix);
    hide Subsets, SubsetsBelow;
    assert found + below + SubsetsBelow(t, query[i + 1..], prefix) ==
      found + (below + SubsetsBelow(t, query[i + 1..], prefix));
  }

  lemma SubsetsEnd<A, D>(t: Tree<A, D>, query: Word<A>, prefix: Word<A>, found: seq<(Word<A>, D)>)
    requires found + SubsetsBelow(t, query[|query|..], prefix) == Subsets(t, query, prefix)
    ensures found == Subsets(t, query, prefix)
  {
    assert query[|query|..] == [];
    assert found + [] == found;
  }

  class TrieNode<A(==, !new), D(!new)> {
    var children: map<A, TrieNode<A, D>>
    var data: Option<D>
    ghost var repr: set<TrieNode<A, D>>
    ghost var tree: Tree<A, D>

    // The nodes at and below this one form a tree, whose value is `tree`.
    ghost predicate Valid()
      reads this, repr
      decreases repr
    {
      && this in repr
      && (forall a :: a in children ==>
        children[a] in repr && children[a].repr < repr && this !in children[a].repr && children[a].Valid())
      && (forall a, b :: a in children && b in children && a != b ==> children[a].repr !! children[b].repr)
      && tree.data == data && tree.children.Keys == children.Keys
      && (forall a :: a in children ==> tree.children[a] == children[a].tree)
    }

    constructor ()
      ensures Valid() && repr == {this} && tree == Tree(None, map[])
    {
      children, data := map[], None;
      repr, tree := {this}, Tree(None, map[]);
    }

    method IsGarbage() returns (garbage: bool)
      requires Valid()
      ensures garbage == SetTrie.Garbage(tree)
    {
      assert tree.children == map[] <==> tree.children.Keys == {};
      garbage := children == map[] && data.None?;
    }

    // The child for a letter, created if it is missing.
    method ChildFor(a: A) returns (child: TrieNode<A, D>)
      requires Valid()
      modifies this
      ensures Valid() && fresh(repr - old(repr))
      ensures a in children && child == children[a]
      ensures tree == WithChild(old(tree), a)
    {
      if a in children {
        child := children[a];
        return;
      }
      child := new TrieNode<A, D>();
      Attach(a, child);
    }

    // A new node below this one.
    method Attach(a: A, child: TrieNode<A, D>)
      requires Valid() && a !in children
      requires child.Valid() && child.repr == {child} && child !in repr && child.tree == Tree(None, map[])
      modifies this
      ensures Valid() && repr == old(repr) + {child} && children == old(children)[a := child]
      ensures tree == WithChild(old(tree), a)
    {
      children := children[a := child];
      repr := repr + {child};
      tree := tree.(children := tree.children[a := child.tree]);
    }

    // The children other than the one for a letter are in order.
    ghost predicate OthersValid(a: A)
      reads this, repr
    {
      && this in repr
      && (forall b :: b in children && b != a ==>
        && children[b] in repr && children[b].repr < repr && this !in children[b].repr && children[b].Valid()
        && b in tree.children && tree.children[b] == children[b].tree)
      && (forall b, c :: b in children && c in children && b != c && b != a && c != a ==>
        children[b].repr !! children[c].repr)
      && tree.data == data && tree.children.Keys == children.Keys
    }

    // Takes in what happened below the child for a letter.
    method Keep(a: A)
      requires OthersValid(a) && a in children
      requires children[a].Valid() && this !in children[a].repr
      requires forall b :: b in children && b != a ==> children[b].repr !! children[a].repr
      modifies this
      ensures Valid() && repr == old(repr) + old(children[a].repr)
      ensures tree == old(tree).(children := old(tree).children[a := old(children[a].tree)])
    {
      repr := repr + children[a].repr;
      tree := tree.(children := tree.children[a := children[a].tree]);
    }

    // Drops the child for a letter.
    method Drop(a: A)
      requires OthersValid(a)
      modifies this
      ensures Valid() && repr == old(repr)
      ensures tree == old(tree).(children := old(tree).children - {a})
    {
      children := children - {a};
      tree := tree.(children := tree.children - {a});
    }

    // Edits below the child for the first letter of a word, creating the child if it is missing.
    method Descend(word: Word<A>, edit: Option<D> -> Option<D>)
      requires Valid() && word != []
      modifies repr
      ensures OthersValid(word[0]) && word[0] in children
      ensures children[word[0]].Valid() && this !in children[word[0]].repr
      ensures forall b :: b in children && b != word[0] ==> children[b].repr !! children[word[0]].repr
      ensures fresh(repr - old(repr)) && fresh(children[word[0]].repr - old(repr))
      ensures tree == WithChild(old(tree), word[0])
      ensures children[word[0]].tree == Edit(tree.children[word[0]], word[1..], edit)
      decreases |word|, 0
    {
      var child := ChildFor(word[0]);
      child.CursorUnder(word[1..], edit);
    }

    // cursorUnderNode, with createMissingNodes.
    method CursorUnder(word: Word<A>, edit: Option<D> -> Option<D>)
      requires Valid()
      modifies repr
      ensures Valid() && fresh(repr - old(repr))
      ensures tree == Edit(old(tree), word, edit)
      decreases |word|, 1
    {
      if word == [] {
        data := edit(data);
        tree := tree.(data := data);
        return;
      }
      assert this in repr;
      hide Valid, OthersValid;
      Descend(word, edit);
      EditThrough(old(tree), word, edit);
      hide Edit, WithChild;
      var garbage := children[word[0]].IsGarbage();
      if garbage {
        Drop(word[0]);
      } else {
        Keep(word[0]);
      }
    }

    method Get(word: Word<A>) returns (found: Option<D>)
      requires Valid()
      ensures found == Lookup(tree, word)
      decreases |word|
    {
      if word == [] {
        return data;
      }
      if word[0] !in children {
        return None;
      }
      found := children[word[0]].Get(word[1..]);
    }

    method SubsetsInNode(query: Word<A>, prefix: Word<A>) returns (found: seq<(Word<A>, D)>)
      requires Valid()
      ensures found == Subsets(tree, query, prefix)
      decreases |query|, 0
    {
      found := if data.Some? then [(prefix, data.value)] else [];
      SubsetsStart(tree, query, prefix);
      hide *;
      for i := 0 to |query|
        invariant found + SubsetsBelow(tree, query[i..], prefix) == Subsets(tree, query, prefix)
      {
        var below := SubsetsThrough(query[i], query[i + 1..], prefix);
        SubsetsStep(tree, query, i, prefix, found, below);
        found := found + below;
      }
      SubsetsEnd(tree, query, prefix, found);
    }

    // The words below the child for a letter, if there is one.
    method SubsetsThrough(a: A, rest: Word<A>, prefix: Word<A>) returns (found: seq<(Word<A>, D)>)
      requires Valid()
      ensures found == if a in tree.children then Subsets(tree.children[a], rest, prefix + [a]) else []
      decreases |rest|, 1
    {
      if a !in children {
        return [];
      }
      found := children[a].SubsetsInNode(rest, prefix + [a]);
    }
  }

  class Trie<A(==, !new), D(!new)> {
    const root: TrieNode<A, D>

    ghost predicate Valid()
      reads root, root.repr
    {
      root.Valid() && NoGarbage(root.tree)
    }

    constructor ()
      ensures Valid() && fresh(root.repr) && root.tree == Tree(None, map[])
    {
      root := new TrieNode<A, D>();
    }

    method RetainOrDrop(word: Word<A>, process: D -> Option<D>)
      requires Valid()
      modifies root.repr
      ensures Valid() && fresh(root.repr - old(root.repr))
      ensures root.tree == Edit(old(root.tree), word, Retaining(process))
      ensures var before := Lookup(old(root.tree), word);
        Lookup(root.tree, word) == if before == None then None else process(before.value)
      ensures OthersKept(old(root.tree), root.tree, word)
    {
      EditKeepsTidy(root.tree, word, Retaining(process));
      EditKeepsOthers(root.tree, word, Retaining(process));
      root.CursorUnder(word, Retaining(process));
    }

    // The source hands updateNode a copy of the data, whose assignment is lost: what stays is what the update does to
    // the data by way of references in it. The data is what was meant exactly when the word is new or the two agree.
    method CreateOrUpdate(word: Word<A>, initial: D, update: D -> Update<D>)
      requires Valid()
      modifies root.repr
      ensures Valid() && fresh(root.repr - old(root.repr))
      ensures root.tree == Edit(old(root.tree), word, CreatingOrUpdating(initial, update))
      ensures var before := Lookup(old(root.tree), word);
        && Lookup(root.tree, word) == Some(if before == None then initial else update(before.value).through)
        && (Lookup(root.tree, word) == Some(Meant(before, initial, update)) <==>
            before == None || update(before.value).meant == update(before.value).through)
      ensures OthersKept(old(root.tree), root.tree, word)
    {
      EditKeepsTidy(root.tree, word, CreatingOrUpdating(initial, update));
      EditKeepsOthers(root.tree, word, CreatingOrUpdating(initial, update));
      root.CursorUnder(word, CreatingOrUpdating(initial, update));
    }

    method Get(word: Word<A>) returns (found: Option<D>)
      requires Valid()
      ensures found == Lookup(root.tree, word)
    {
      found := root.Get(word);
    }

    method Subsets(query: Word<A>) returns (found: seq<(Word<A>, D)>)
      requires Valid()
      ensures found == SetTrie.Subsets(root.tree, query, [])
    {
      found := root.SubsetsInNode(query, []);
    }
  }

  ghost predicate OthersKept<A(!new), D>(t: Tree<A, D>, t': Tree<A, D>, word: Word<A>) {
    forall other: Word<A> :: other != word ==> Lookup(t', other) == Lookup(t, other)
  }

  lemma EditKeepsOthers<A(!new), D>(t: Tree<A, D>, word: Word<A>, edit: Option<D> -> Option<D>)
    ensures Lookup(Edit(t, word, edit), word) == edit(Lookup(t, word))
    ensures OthersKept(t, Edit(t, word, edit), word)
  {
    EditIsUpdate(t, word, edit, word);
    forall other: Word<A> | other != word ensures Lookup(Edit(t, word, edit), other) == Lookup(t, other) {
      EditIsUpdate(t, word, edit, other);
    }
  }

  function Retaining<D>(process: D -> Option<D>): Option<D> -> Option<D> {
    (o: Option<D>) => match o case Some(d) => process(d) case None => None
  }

  // What an update leaves where its pointer points, and what the data it was given a copy of has become meanwhile,
  // through the references that both hold.
  datatype Update<D> = Update(meant: D, through: D)

  function CreatingOrUpdating<D>(initial: D, update: D -> Update<D>): Option<D> -> Option<D> {
    (o: Option<D>) => match o case Some(d) => Some(update(d).through) case None => Some(initial)
  }

  function Meant<D>(before: Option<D>, initial: D, update: D -> Update<D>): D {
    match before
    case Some(d) => update(d).meant
    case None => initial
  }

  // A counter stored as a number is never incremented.
  lemma AssignmentLost()
    ensures
      var update := (n: int) => Update(n + 1, n);
      var edit := CreatingOrUpdating(1, update);
      var once := Edit<char, int>(Tree(None, map[]), "w", edit);
      && Lookup(once, "w") == Some(1) && Meant(Some(1), 1, update) == 2
      && Lookup(Edit(once, "w", edit), "w") == Some(1)
  {
    var edit := CreatingOrUpdating(1, (n: int) => Update(n + 1, n));
    EditIsUpdate<char, int>(Tree(None, map[]), "w", edit, "w");
    EditIsUpdate(Edit<char, int>(Tree(None, map[]), "w", edit), "w", edit, "w");
  }

  // ----- the multimap -----

  // The subkeys of a word.
  function Entry<A, K, D>(t: Tree<A, map<K, D>>, word: Word<A>): map<K, D> {
    GetOr(Lookup(t, word), map[])
  }

  // No word keeps an empty map of subkeys.
  ghost predicate NoEmptyEntry<A(!new), K, D>(t: Tree<A, map<K, D>>) {
    forall word :: Lookup(t, word) != Some(map[])
  }

  // One word gets a new entry, the others keep theirs.
  ghost predicate EntrySet<A(!new), K, D>(t: Tree<A, map<K, D>>, t': Tree<A, map<K, D>>, word: Word<A>,
                                          entry: map<K, D>) {
    Entry(t', word) == entry && forall w :: w != word ==> Entry(t', w) == Entry(t, w)
  }

  class Multi<A(==, !new), K(==, !new), D(==, !new)> {
    const trie: Trie<A, map<K, D>>

    ghost predicate Valid()
      reads trie.root, trie.root.repr
    {
      trie.Valid() && NoEmptyEntry(trie.root.tree)
    }

    constructor ()
      ensures Valid() && fresh(trie) && fresh(trie.root.repr) && trie.root.tree == Tree(None, map[])
    {
      trie := new Trie<A, map<K, D>>();
    }

    method Insert(word: Word<A>, subkey: K, data: D) returns (existed: bool)
      requires Valid()
      modifies trie.root.repr
      ensures Valid() && fresh(trie.root.repr - old(trie.root.repr))
      ensures existed == (subkey in Entry(old(trie.root.tree), word))
      ensures EntrySet(old(trie.root.tree), trie.root.tree, word, Entry(old(trie.root.tree), word)[subkey := data])
    {
      var map_ := trie.Get(word);
      existed := map_.Some? && subkey in map_.value;
      assert subkey in map[subkey := data] && subkey in Entry(trie.root.tree, word)[subkey := data];
      // A map is a reference: setting a subkey of the copy sets it in the data.
      var update := (m: map<K, D>) => Update(m[subkey := data], m[subkey := data]);
      ghost var edit := CreatingOrUpdating(map[subkey := data], update);
      forall w { EditIsUpdate(trie.root.tree, word, edit, w); }
      trie.CreateOrUpdate(word, map[subkey := data], update);
    }

    method Remove(word: Word<A>, subkey: K) returns (existed: bool)
      requires Valid()
      modifies trie.root.repr
      ensures Valid() && fresh(trie.root.repr - old(trie.root.repr))
      ensures existed == (subkey in Entry(old(trie.root.tree), word))
      ensures EntrySet(old(trie.root.tree), trie.root.tree, word, Entry(old(trie.root.tree), word) - {subkey})
    {
      var map_ := trie.Get(word);
      existed := map_.Some? && subkey in map_.value;
      var process := (m: map<K, D>) => if m - {subkey} == map[] then None else Some(m - {subkey});
      forall w { EditIsUpdate(trie.root.tree, word, Retaining(process), w); }
      trie.RetainOrDrop(word, process);
    }
  
    // Every subkey of every stored word that is a subset of the query; a map is iterated in any order.
    method Subsets(query: Word<A>) returns (pairs: seq<(K, D)>)
      requires Valid()
      ensures forall pair :: pair in pairs <==> Yields(trie.root.tree, query, pair)
    {
      var found := trie.Subsets(query);
      pairs := [];
      for i := 0 to |found|
        invariant forall pair :: pair in pairs <==> YieldedBy(found[..i], pair)
      {
        var items := MapKvs(found[i].1);
        assert found[..i + 1] == found[..i] + [found[i]];
        pairs := pairs + items;
      }
      assert found[..|found|] == found;
      forall pair ensures YieldedBy(found, pair) <==> Yields(trie.root.tree, query, pair) {
        YieldedIffSubset(trie.root.tree, query, pair);
      }
    }
  }

  ghost predicate YieldedBy<A(!new), K, D>(found: seq<(Word<A>, map<K, D>)>, pair: (K, D)) {
    exists i :: 0 <= i < |found| && InMap(found[i].1, pair)
  }

  predicate InMap<K(==), D(==)>(m: map<K, D>, pair: (K, D)) {
    pair.0 in m && m[pair.0] == pair.1
  }

  // The query reads a word that has the pair.
  ghost predicate Yields<A(!new), K, D>(t: Tree<A, map<K, D>>, query: Word<A>, pair: (K, D)) {
    exists word :: IsSubsequence(word, query) && InMap(Entry(t, word), pair)
  }

  lemma YieldedIffSubset<A(!new), K(!new), D(!new)>(t: Tree<A, map<K, D>>, query: Word<A>, pair: (K, D))
    ensures YieldedBy(SetTrie.Subsets(t, query, []), pair) <==> Yields(t, query, pair)
  {
    var found := SetTrie.Subsets(t, query, []);
    if i :| 0 <= i < |found| && InMap(found[i].1, pair) {
      SubsetsYields(t, query, found[i].0, found[i].1);
      assert found[i] in found;
      assert InMap(Entry(t, found[i].0), pair);
    }
    if word :| IsSubsequence(word, query) && InMap(Entry(t, word), pair) {
      SubsetsYields(t, query, word, Entry(t, word));
      var i :| 0 <= i < |found| && found[i] == (word, Entry(t, word));
      assert InMap(found[i].1, pair);
    }
  }

  method MapKvs<K(==, !new), D(==, !new)>(m: map<K, D>) returns (pairs: seq<(K, D)>)
    ensures forall pair :: pair in pairs <==> InMap(m, pair)
  {
    pairs := [];
    var rest := m.Keys;
    while rest != {}
      invariant rest <= m.Keys
      invariant forall pair :: pair in pairs <==> InMap(m, pair) && pair.0 !in rest
    {
      var key :| key in rest;
      rest := rest - {key};
      pairs := pairs + [(key, m[key])];
    }
  }
}
