/**
 The set-trie of util/labelindex/settrie/trie.go: a map from words to data whose nodes live on the heap, and the
 search for the stored words that are subsets of a query word.
 */
module SetTrie {
  import opened Common

  // ----- tries as values -----

  type Word<A> = seq<A>

  datatype Tree<A, D> = Tree(data: Option<D>, children: map<A, Tree<A, D>>)

  predicate Garbage<A, D>(t: Tree<A, D>) {
    t.children == map[] && t.data.None?
  }

  function Lookup<A, D>(t: Tree<A, D>, word: Word<A>): Option<D> {
    if word == [] then t.data
    else if word[0] in t.children then Lookup(t.children[word[0]], word[1..])
    else None
  }

  // The trie after the data of a word was edited, without the nodes that no longer lead to a word.
  function Edit<A, D>(t: Tree<A, D>, word: Word<A>, edit: Option<D> -> Option<D>): Tree<A, D>
    decreases |word|
  {
    if word == [] then t.(data := edit(t.data))
    else
      var child := if word[0] in t.children then t.children[word[0]] else Tree(None, map[]);
      var edited := Edit(child, word[1..], edit);
      t.(children := if Garbage(edited) then t.children - {word[0]} else t.children[word[0] := edited])
  }

  // Every node below the root leads to a word.
  ghost predicate NoGarbage<A, D>(t: Tree<A, D>)
    decreases t
  {
    forall a :: a in t.children ==> !Garbage(t.children[a]) && NoGarbage(t.children[a])
  }

  lemma {:induction false} EditKeepsTidy<A, D>(t: Tree<A, D>, word: Word<A>, edit: Option<D> -> Option<D>)
    requires NoGarbage(t)
    ensures NoGarbage(Edit(t, word, edit))
    decreases |word|
  {
    if word != [] {
      var child := if word[0] in t.children then t.children[word[0]] else Tree(None, map[]);
      EditKeepsTidy(child, word[1..], edit);
    }
  }

  // An edit changes the data of its word and of no other.
  lemma {:induction false} EditIsUpdate<A, D>(t: Tree<A, D>, word: Word<A>, edit: Option<D> -> Option<D>,
                                              other: Word<A>)
    ensures Lookup(Edit(t, word, edit), other) == if other == word then edit(Lookup(t, word)) else Lookup(t, other)
    decreases |word|
  {
    if word != [] {
      var child := if word[0] in t.children then t.children[word[0]] else Tree(None, map[]);
      if other != [] && other[0] == word[0] {
        EditIsUpdate(child, word[1..], edit, other[1..]);
        assert word == [word[0]] + word[1..] && other == [other[0]] + other[1..];
        assert word[0] !in t.children ==> Lookup(child, word[1..]) == None && Lookup(child, other[1..]) == None;
      }
    }
  }

  ghost predicate LeadsToWord<A(!new), D>(t: Tree<A, D>) {
    exists word :: Lookup(t, word).Some?
  }

  // What it means for a node not to be garbage.
  lemma {:induction false} TidyLeadsToWord<A(!new), D>(t: Tree<A, D>)
    requires NoGarbage(t) && !Garbage(t)
    ensures LeadsToWord(t)
    decreases t
  {
    if t.data.Some? {
      assert Lookup(t, []).Some?;
    } else {
      var a :| a in t.children;
      TidyLeadsToWord(t.children[a]);
      var word :| Lookup(t.children[a], word).Some?;
      assert ([a] + word)[1..] == word;
      assert Lookup(t, [a] + word).Some?;
    }
  }

  // ----- searching for subsets -----

  // Every embedding of a stored word in the query yields the word once: first the word at the node itself, then,
  // letter by letter of the query, the words below the child for that letter.
  function Subsets<A, D>(t: Tree<A, D>, query: Word<A>, prefix: Word<A>): seq<(Word<A>, D)>
    decreases |query|, 1
  {
    (if t.data.Some? then [(prefix, t.data.value)] else []) + SubsetsBelow(t, query, prefix)
  }

  function SubsetsBelow<A, D>(t: Tree<A, D>, query: Word<A>, prefix: Word<A>): seq<(Word<A>, D)>
    decreases |query|, 0
  {
    if query == [] then []
    else
      (if query[0] in t.children then Subsets(t.children[query[0]], query[1..], prefix + [query[0]]) else []) +
      SubsetsBelow(t, query[1..], prefix)
  }

  // How many ways a word can be read in a query, left to right.
  function Embeddings<A(==)>(word: Word<A>, query: Word<A>): nat {
    if word == [] then 1
    else if query == [] then 0
    else (if query[0] == word[0] then Embeddings(word[1..], query[1..]) else 0) + Embeddings(word, query[1..])
  }

  function Count<A(==), D>(found: seq<(Word<A>, D)>, word: Word<A>): nat {
    if found == [] then 0 else (if found[0].0 == word then 1 else 0) + Count(found[1..], word)
  }

  lemma {:induction false} CountConcat<A, D>(x: seq<(Word<A>, D)>, y: seq<(Word<A>, D)>, word: Word<A>)
    ensures Count(x + y, word) == Count(x, word) + Count(y, word)
  {
    if x == [] {
      assert x + y == y;
    } else {
      assert (x + y)[1..] == x[1..] + y;
      CountConcat(x[1..], y, word);
    }
  }

  // A stored word is found once for each way to read it in the query, other words are not found.
  lemma {:induction false} SubsetsCount<A, D>(t: Tree<A, D>, query: Word<A>, prefix: Word<A>, word: Word<A>)
    ensures Count(Subsets(t, query, prefix), prefix + word) ==
      if Lookup(t, word).Some? then Embeddings(word, query) else 0
    decreases |query|, 1
  {
    var here := if t.data.Some? then [(prefix, t.data.value)] else [];
    CountConcat(here, SubsetsBelow(t, query, prefix), prefix + word);
    if word == [] {
      assert prefix + word == prefix;
      BelowIsLonger(t, query, prefix);
    } else {
      assert |prefix + word| > |prefix|;
      SubsetsBelowCount(t, query, prefix, word);
    }
  }

  lemma {:induction false} SubsetsBelowCount<A, D>(t: Tree<A, D>, query: Word<A>, prefix: Word<A>, word: Word<A>)
    requires word != []
    ensures Count(SubsetsBelow(t, query, prefix), prefix + word) ==
      if Lookup(t, word).Some? then Embeddings(word, query) else 0
    decreases |query|, 0
  {
    if query != [] {
      var a := query[0];
      SubsetsBelowCount(t, query[1..], prefix, word);
      if a !in t.children {
        assert SubsetsBelow(t, query, prefix) == SubsetsBelow(t, query[1..], prefix);
      } else {
        var below := Subsets(t.children[a], query[1..], prefix + [a]);
        CountConcat(below, SubsetsBelow(t, query[1..], prefix), prefix + word);
        if a == word[0] {
          SubsetsCount(t.children[a], query[1..], prefix + [a], word[1..]);
          assert prefix + word == prefix + [a] + word[1..];
        } else {
          Extend(t.children[a], query[1..], prefix + [a]);
          NotBelow(below, prefix, a, word);
        }
      }
    }
  }

  // Words found below a node extend the prefix of the node.
  ghost predicate Extends<A, D>(found: seq<(Word<A>, D)>, prefix: Word<A>) {
    forall i :: 0 <= i < |found| ==> prefix <= found[i].0
  }

  lemma {:induction false} Extend<A, D>(t: Tree<A, D>, query: Word<A>, prefix: Word<A>)
    ensures Extends(Subsets(t, query, prefix), prefix)
    decreases |query|, 1
  {
    ExtendBelow(t, query, prefix);
  }

  lemma {:induction false} ExtendBelow<A, D>(t: Tree<A, D>, query: Word<A>, prefix: Word<A>)
    ensures Extends(SubsetsBelow(t, query, prefix), prefix)
    ensures forall i :: 0 <= i < |SubsetsBelow(t, query, prefix)| ==> SubsetsBelow(t, query, prefix)[i].0 != prefix
    decreases |query|, 0
  {
    if query != [] {
      ExtendBelow(t, query[1..], prefix);
      if query[0] in t.children {
        Extend(t.children[query[0]], query[1..], prefix + [query[0]]);
      }
    }
  }

  lemma BelowIsLonger<A, D>(t: Tree<A, D>, query: Word<A>, prefix: Word<A>)
    ensures Count(SubsetsBelow(t, query, prefix), prefix) == 0
  {
    ExtendBelow(t, query, prefix);
    Absent(SubsetsBelow(t, query, prefix), prefix);
  }

  lemma {:induction false} Absent<A, D>(found: seq<(Word<A>, D)>, word: Word<A>)
    requires forall i :: 0 <= i < |found| ==> found[i].0 != word
    ensures Count(found, word) == 0
  {
    if found != [] { Absent(found[1..], word); }
  }

  lemma NotBelow<A, D>(found: seq<(Word<A>, D)>, prefix: Word<A>, a: A, word: Word<A>)
    requires Extends(found, prefix + [a]) && word != [] && word[0] != a
    ensures Count(found, prefix + word) == 0
  {
    forall i | 0 <= i < |found| ensures found[i].0 != prefix + word {
      assert (prefix + [a])[|prefix|] == a && (prefix + word)[|prefix|] == word[0];
    }
    Absent(found, prefix + word);
  }

  // ----- subsequences -----

  predicate IsSubsequence<A(==)>(word: Word<A>, query: Word<A>) {
    word == [] || (query != [] &&
      ((query[0] == word[0] && IsSubsequence(word[1..], query[1..])) || IsSubsequence(word, query[1..])))
  }

  lemma {:induction false} SubsequenceLetters<A>(word: Word<A>, query: Word<A>, a: A)
    requires IsSubsequence(word, query) && a in word
    ensures a in query
  {
    if query[0] == word[0] && IsSubsequence(word[1..], query[1..]) {
      if a != word[0] { SubsequenceLetters(word[1..], query[1..], a); }
    } else {
      SubsequenceLetters(word, query[1..], a);
    }
  }

  // Some embedding exists exactly for subsequences, and no two for a query without repeated letters.
  lemma {:induction false} EmbeddingsCount<A(!new)>(word: Word<A>, query: Word<A>)
    ensures Embeddings(word, query) > 0 <==> IsSubsequence(word, query)
    ensures Distinct(query) ==> Embeddings(word, query) <= 1
  {
    if word != [] && query != [] {
      var rest := query[1..];
      EmbeddingsCount(word, rest);
      EmbeddingsCount(word[1..], rest);
      if Distinct(query) {
        assert Distinct(rest) by {
          forall i, j | 0 <= i < j < |rest| ensures rest[i] != rest[j] { assert query[i + 1] != query[j + 1]; }
        }
        if query[0] == word[0] {
          assert query[0] !in rest;
          if IsSubsequence(word, rest) { SubsequenceLetters(word, rest, word[0]); }
        }
      }
    }
  }

  // For a query without repeated letters, Subsets yields each stored word that is a subsequence of the query once,
  // and nothing else.
  lemma SubsetsExact<A(!new), D>(t: Tree<A, D>, query: Word<A>, word: Word<A>)
    requires Distinct(query)
    ensures Count(Subsets(t, query, []), word) == if Lookup(t, word).Some? && IsSubsequence(word, query) then 1 else 0
  {
    SubsetsCount(t, query, [], word);
    assert [] + word == word;
    EmbeddingsCount(word, query);
  }

  // The data yielded with a word is the data stored for it.
  lemma {:induction false} SubsetsData<A, D>(t: Tree<A, D>, query: Word<A>, prefix: Word<A>, i: nat)
    requires i < |Subsets(t, query, prefix)|
    ensures var (word, data) := Subsets(t, query, prefix)[i];
      prefix <= word && Lookup(t, word[|prefix|..]) == Some(data)
    decreases |query|, 1
  {
    var here := if t.data.Some? then 1 else 0;
    if i >= here { SubsetsBelowData(t, query, prefix, i - here); }
  }

  lemma {:induction false} SubsetsBelowData<A, D>(t: Tree<A, D>, query: Word<A>, prefix: Word<A>, i: nat)
    requires i < |SubsetsBelow(t, query, prefix)|
    ensures var (word, data) := SubsetsBelow(t, query, prefix)[i];
      prefix <= word && Lookup(t, word[|prefix|..]) == Some(data)
    decreases |query|, 0
  {
    var a := query[0];
    var below := if a in t.children then Subsets(t.children[a], query[1..], prefix + [a]) else [];
    if i < |below| {
      SubsetsData(t.children[a], query[1..], prefix + [a], i);
      var word := below[i].0;
      assert (prefix + [a])[|prefix|] == a && word[|prefix|] == a;
      assert word[|prefix|..] == [a] + word[|prefix| + 1..];
    } else {
      SubsetsBelowData(t, query[1..], prefix, i - |below|);
    }
  }

  lemma {:induction false} Counted<A, D>(found: seq<(Word<A>, D)>, word: Word<A>)
    ensures Count(found, word) > 0 <==> exists i :: 0 <= i < |found| && found[i].0 == word
  {
    if found != [] {
      Counted(found[1..], word);
      if i :| 0 <= i < |found| && found[i].0 == word && found[0].0 != word { assert found[1..][i - 1].0 == word; }
    }
  }

  // What Subsets yields for any query.
  lemma SubsetsYields<A(!new), D>(t: Tree<A, D>, query: Word<A>, word: Word<A>, data: D)
    ensures (word, data) in Subsets(t, query, []) <==> IsSubsequence(word, query) && Lookup(t, word) == Some(data)
  {
    var found := Subsets(t, query, []);
    SubsetsCount(t, query, [], word);
    EmbeddingsCount(word, query);
    Counted(found, word);
    assert [] + word == word;
    forall i | 0 <= i < |found| && found[i].0 == word ensures Lookup(t, word) == Some(found[i].1) {
      SubsetsData(t, query, [], i);
      assert word[0..] == word;
    }
  }

  // ----- histories -----

  datatype Op<A, !D> = Op(word: Word<A>, edit: Option<D> -> Option<D>)

  function TreeAfter<A, D>(ops: seq<Op<A, D>>): Tree<A, D> {
    if ops == [] then Tree(None, map[])
    else Edit(TreeAfter(ops[..|ops| - 1]), ops[|ops| - 1].word, ops[|ops| - 1].edit)
  }

  // What a plain map from words to data would hold.
  function MapAfter<A(==), D>(ops: seq<Op<A, D>>, word: Word<A>): Option<D> {
    if ops == [] then None
    else
      var before, op := MapAfter(ops[..|ops| - 1], word), ops[|ops| - 1];
      if op.word == word then op.edit(before) else before
  }

  // After any operations the trie is that map, and has no garbage node below its root.
  lemma {:induction false} TrieRefinesMap<A(!new), D>(ops: seq<Op<A, D>>, word: Word<A>)
    ensures Lookup(TreeAfter(ops), word) == MapAfter(ops, word)
    ensures NoGarbage(TreeAfter(ops))
  {
    if ops != [] {
      var before, op := ops[..|ops| - 1], ops[|ops| - 1];
      TrieRefinesMap(before, word);
      EditIsUpdate(TreeAfter(before), op.word, op.edit, word);
      EditKeepsTidy(TreeAfter(before), op.word, op.edit);
    }
  }
}
