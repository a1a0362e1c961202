/**
 * The retrieval side of the backend: the corpus of `.txt` documents, the
 * sparse TF-IDF vectors, cosine similarity and the top-K ranking.
 *
 * The TF-IDF weighting itself belongs to a library whose code is not part of
 * this model. Its state is the list of texts added to it, and its `listTerms`
 * query is the parameter `listTerms`: given the texts added so far and a
 * document index, the (term, weight) items it reports for that document.
 */
module Retrieve {
  import opened Wrappers
  import opened Text

  /** A loaded document: the file name and the file's whole content. */
  datatype Doc = Doc(filename: string, text: string)

  /** A document together with its similarity to the query. */
  datatype Scored = Scored(text: string, filename: string, score: real)

  /** One item of the library's `listTerms`: a term and its TF-IDF weight. */
  datatype TermItem = TermItem(term: string, tfidf: real)

  /** A sparse vector: the weight of every term present; absent terms weigh 0. */
  type TermVector = map<string, real>

  /** `tfidf.listTerms(index)` on a TF-IDF instance to which `corpus` was added in order. */
  type ListTerms = (seq<string>, nat) -> seq<TermItem>

  const NotLoadedMessage := "Documents not loaded. Call loadDocuments() first."

  // ---------------------------------------------------------------------------
  // Loading the corpus

  /** The names of a directory listing that end in ".txt", in listing order. */
  function TxtFiles(listing: seq<string>): (files: seq<string>)
    ensures |files| <= |listing|
  {
    if listing == [] then []
    else
      var rest := TxtFiles(listing[..|listing| - 1]);
      var last := listing[|listing| - 1];
      if EndsWith(last, ".txt") then rest + [last] else rest
  }

  /** A name is kept exactly when it is listed and ends in ".txt". */
  lemma {:induction false} TxtFilesMembers(listing: seq<string>, f: string)
    ensures f in TxtFiles(listing) <==> f in listing && EndsWith(f, ".txt")
  {
    if listing != [] {
      var init := listing[..|listing| - 1];
      TxtFilesMembers(init, f);
      assert listing == init + [listing[|listing| - 1]];
    }
  }

  /** The filter keeps listing order: it distributes over concatenation of listings. */
  lemma {:induction false} TxtFilesAppend(a: seq<string>, b: seq<string>)
    ensures TxtFiles(a + b) == TxtFiles(a) + TxtFiles(b)
  {
    if b == [] {
      assert a + b == a;
    } else {
      var init := b[..|b| - 1];
      assert (a + b)[..|a + b| - 1] == a + init;
      TxtFilesAppend(a, init);
    }
  }

  /** The documents read for a list of file names, in that order. */
  function LoadAll(files: seq<string>, readFile: string -> string): (docs: seq<Doc>)
    ensures |docs| == |files|
  {
    seq(|files|, i requires 0 <= i < |files| => Doc(files[i], readFile(files[i])))
  }

  /** The texts of a list of documents, in order. */
  function Texts(docs: seq<Doc>): (texts: seq<string>)
    ensures |texts| == |docs|
  {
    seq(|docs|, i requires 0 <= i < |docs| => docs[i].text)
  }

  // ---------------------------------------------------------------------------
  // Sparse vectors

  /** The vector built by assigning `vector[item.term] = item.tfidf` for each item in order. */
  function VectorOf(items: seq<TermItem>): (v: TermVector)
    ensures v.Keys == set i | 0 <= i < |items| :: items[i].term
  {
    if items == [] then map[]
    else
      var last := items[|items| - 1];
      var v' := VectorOf(items[..|items| - 1]);
      assert forall i :: 0 <= i < |items| - 1 ==> items[..|items| - 1][i] == items[i];
      v'[last.term := last.tfidf]
  }

  /** When a term is listed more than once, the last listed weight is the one kept. */
  lemma {:induction false} VectorOfLastWins(items: seq<TermItem>, j: nat)
    requires j < |items|
    requires forall k :: j < k < |items| ==> items[k].term != items[j].term
    ensures items[j].term in VectorOf(items) && VectorOf(items)[items[j].term] == items[j].tfidf
  {
    if j < |items| - 1 {
      VectorOfLastWins(items[..|items| - 1], j);
    }
  }

  /** Builds a vector from the library's items, one key assignment at a time. */
  method BuildVector(items: seq<TermItem>) returns (vector: TermVector)
    ensures vector == VectorOf(items)
  {
    vector := map[];
    var i := 0;
    while i < |items|
      invariant 0 <= i <= |items|
      invariant vector == VectorOf(items[..i])
    {
      assert items[..i + 1][..i] == items[..i];
      vector := vector[items[i].term := items[i].tfidf];
      i := i + 1;
    }
    assert items[..i] == items;
  }

  /** `vector[key] || 0`: the weight of a term, 0 when the term is absent. */
  function Weight(v: TermVector, key: string): (w: real)
    ensures key in v ==> w == v[key]
    ensures key !in v ==> w == 0.0
  {
    if key in v then v[key] else 0.0
  }

  /** The contribution of one key to a dot product: `val1 * val2` with absent weights read as 0. */
  function Term(v1: TermVector, v2: TermVector, key: string): (t: real)
    ensures key in v1 && key in v2 ==> t == v1[key] * v2[key]
    ensures key !in v1 || key !in v2 ==> t == 0.0
  {
    Weight(v1, key) * Weight(v2, key)
  }

  /** Some key of a non-empty key set: the one a sum over the set visits first. */
  ghost function Pick(keys: set<string>): (k: string)
    requires keys != {}
    ensures k in keys
  {
    var k :| k in keys; k
  }

  /** The sum over `keys` of the products of the two vectors' weights. */
  ghost function Dot(v1: TermVector, v2: TermVector, keys: set<string>): real
    decreases keys
  {
    if keys == {} then 0.0
    else
      var k := Pick(keys);
      Term(v1, v2, k) + Dot(v1, v2, keys - {k})
  }

  /** The sum does not depend on the order the keys are visited in: any key can go first. */
  lemma {:induction false} DotRemove(v1: TermVector, v2: TermVector, keys: set<string>, k: string)
    requires k in keys
    ensures Dot(v1, v2, keys) == Term(v1, v2, k) + Dot(v1, v2, keys - {k})
    decreases keys
  {
    var j := Pick(keys);
    if j != k {
      DotRemove(v1, v2, keys - {j}, k);
      DotRemove(v1, v2, keys - {k}, j);
      assert keys - {j} - {k} == keys - {k} - {j};
    }
  }

  /** The dot product is symmetric. */
  lemma {:induction false} DotSymmetric(v1: TermVector, v2: TermVector, keys: set<string>)
    ensures Dot(v1, v2, keys) == Dot(v2, v1, keys)
    decreases keys
  {
    if keys != {} {
      var k := Pick(keys);
      DotSymmetric(v1, v2, keys - {k});
    }
  }

  /** Keys whose term is 0 contribute nothing: summing over `keys` equals summing over `part`. */
  lemma {:induction false} DotDropZeroTerms(v1: TermVector, v2: TermVector, keys: set<string>, part: set<string>)
    requires part <= keys
    requires forall k :: k in keys && k !in part ==> Term(v1, v2, k) == 0.0
    ensures Dot(v1, v2, keys) == Dot(v1, v2, part)
    decreases keys
  {
    if keys != part {
      var k :| k in keys && k !in part;
      DotRemove(v1, v2, keys, k);
      DotDropZeroTerms(v1, v2, keys - {k}, part);
    }
  }

  /** A sum of squares is never negative, and it is 0 exactly when every weight over `keys` is 0. */
  lemma {:induction false} SquaresZero(v: TermVector, keys: set<string>)
    ensures Dot(v, v, keys) >= 0.0
    ensures Dot(v, v, keys) == 0.0 <==> forall k :: k in keys ==> Weight(v, k) == 0.0
    decreases keys
  {
    if keys != {} {
      var k := Pick(keys);
      var rest := keys - {k};
      SquaresZero(v, rest);
      Square(Weight(v, k), Term(v, v, k));
      assert Dot(v, v, keys) == Term(v, v, k) + Dot(v, v, rest);
      if forall j :: j in keys ==> Weight(v, j) == 0.0 {
        assert Term(v, v, k) == 0.0;
      } else {
        var j :| j in keys && Weight(v, j) != 0.0;
        if j != k {
          assert j in rest;
        }
      }
    }
  }

  /** A square is never negative, and it is positive unless its root is 0. */
  lemma Square(x: real, sq: real)
    requires sq == x * x
    ensures sq >= 0.0
    ensures x != 0.0 ==> sq > 0.0
  {
    if x > 0.0 {
      PositiveProduct(x, x, sq);
    } else if x < 0.0 {
      PositiveProduct(-x, -x, sq);
    }
  }

  /** The squared magnitude of a vector: the sum of its own squared weights. */
  ghost function SquaredMagnitude(v: TermVector): real {
    Dot(v, v, v.Keys)
  }

  /** `Math.sqrt` is given; all the model needs of it is that it is positive on positive numbers. */
  ghost predicate SqrtPositive(sqrt: real -> real) {
    forall x :: x > 0.0 ==> sqrt(x) > 0.0
  }

  /** The final step of `cosineSimilarity`: 0 when a magnitude is 0, else the normalised dot product. */
  ghost function Normalize(dot: real, mag1: real, mag2: real, sqrt: real -> real): (r: real)
    requires SqrtPositive(sqrt) && mag1 >= 0.0 && mag2 >= 0.0
    ensures mag1 == 0.0 || mag2 == 0.0 ==> r == 0.0
    ensures mag1 > 0.0 && mag2 > 0.0 ==> r * (sqrt(mag1) * sqrt(mag2)) == dot
  {
    if mag1 == 0.0 || mag2 == 0.0 then 0.0
    else
      var p := sqrt(mag1) * sqrt(mag2);
      PositiveProduct(sqrt(mag1), sqrt(mag2), p);
      Quotient(dot, p);
      dot / p
  }

  lemma Quotient(x: real, p: real)
    requires p > 0.0
    ensures (x / p) * p == x
  {
  }

  /** What `cosineSimilarity(vec1, vec2)` computes over the union of the two key sets. */
  ghost function Similarity(vec1: TermVector, vec2: TermVector, sqrt: real -> real): (r: real)
    requires SqrtPositive(sqrt)
    ensures SquaredMagnitude(vec1) >= 0.0 && SquaredMagnitude(vec2) >= 0.0
    ensures r == Normalize(Dot(vec1, vec2, vec1.Keys * vec2.Keys), SquaredMagnitude(vec1), SquaredMagnitude(vec2), sqrt)
  {
    var keys := vec1.Keys + vec2.Keys;
    SquaresZero(vec1, keys);
    SquaresZero(vec2, keys);
    UnionMagnitude(vec1, vec2);
    UnionMagnitude(vec2, vec1);
    assert vec2.Keys + vec1.Keys == keys;
    DotOverSharedKeys(vec1, vec2);
    Normalize(Dot(vec1, vec2, keys), Dot(vec1, vec1, keys), Dot(vec2, vec2, keys), sqrt)
  }

  lemma PositiveProduct(a: real, b: real, p: real)
    requires a > 0.0 && b > 0.0 && p == a * b
    ensures p > 0.0
  {
  }

  /** `cosineSimilarity(vec1, vec2)`: the three sums, then the zero-magnitude guard, then the normalisation. */
  method CosineSimilarity(vec1: TermVector, vec2: TermVector, sqrt: real -> real) returns (similarity: real)
    requires SqrtPositive(sqrt)
    ensures similarity == Similarity(vec1, vec2, sqrt)
  {
    var dotProduct, mag1, mag2 := Accumulate(vec1, vec2);
    ghost var keys := vec1.Keys + vec2.Keys;
    SquaresZero(vec1, keys);
    SquaresZero(vec2, keys);
    assert Similarity(vec1, vec2, sqrt) == Normalize(dotProduct, mag1, mag2, sqrt);
    if mag1 == 0.0 || mag2 == 0.0 {
      return 0.0;
    }
    PositiveProduct(sqrt(mag1), sqrt(mag2), sqrt(mag1) * sqrt(mag2));
    similarity := dotProduct / (sqrt(mag1) * sqrt(mag2));
  }

  /**
   * The `keys.forEach` loop: visits every key of the union once and adds
   * `val1 * val2`, `val1 * val1` and `val2 * val2` to the three sums.
   */
  method Accumulate(vec1: TermVector, vec2: TermVector) returns (dotProduct: real, mag1: real, mag2: real)
    ensures dotProduct == Dot(vec1, vec2, vec1.Keys + vec2.Keys)
    ensures mag1 == Dot(vec1, vec1, vec1.Keys + vec2.Keys)
    ensures mag2 == Dot(vec2, vec2, vec1.Keys + vec2.Keys)
  {
    var keys := vec1.Keys + vec2.Keys;
    dotProduct, mag1, mag2 := 0.0, 0.0, 0.0;
    var remaining := keys;
    while remaining != {}
      invariant remaining <= keys
      invariant dotProduct + Dot(vec1, vec2, remaining) == Dot(vec1, vec2, keys)
      invariant mag1 + Dot(vec1, vec1, remaining) == Dot(vec1, vec1, keys)
      invariant mag2 + Dot(vec2, vec2, remaining) == Dot(vec2, vec2, keys)
      decreases remaining
    {
      var key :| key in remaining;
      DotRemove(vec1, vec2, remaining, key);
      DotRemove(vec1, vec1, remaining, key);
      DotRemove(vec2, vec2, remaining, key);
      dotProduct := dotProduct + Term(vec1, vec2, key);
      mag1 := mag1 + Term(vec1, vec1, key);
      mag2 := mag2 + Term(vec2, vec2, key);
      remaining := remaining - {key};
    }
  }

  /** Summing over the union of the keys sees each vector's own squared magnitude. */
  lemma UnionMagnitude(v: TermVector, other: TermVector)
    ensures Dot(v, v, v.Keys + other.Keys) == SquaredMagnitude(v)
  {
    DotDropZeroTerms(v, v, v.Keys + other.Keys, v.Keys);
  }

  /** The dot product over the union of the keys equals the sum over the shared keys only. */
  lemma DotOverSharedKeys(vec1: TermVector, vec2: TermVector)
    ensures Dot(vec1, vec2, vec1.Keys + vec2.Keys) == Dot(vec1, vec2, vec1.Keys * vec2.Keys)
  {
    DotDropZeroTerms(vec1, vec2, vec1.Keys + vec2.Keys, vec1.Keys * vec2.Keys);
  }

  /** The zero-magnitude guard: a vector whose weights are all 0 (or that is empty) scores 0 against anything. */
  lemma ZeroMagnitudeScoresZero(vec1: TermVector, vec2: TermVector, sqrt: real -> real)
    requires SqrtPositive(sqrt)
    requires SquaredMagnitude(vec1) == 0.0 || SquaredMagnitude(vec2) == 0.0
    ensures Similarity(vec1, vec2, sqrt) == 0.0
  {
    var keys := vec1.Keys + vec2.Keys;
    UnionMagnitude(vec1, vec2);
    UnionMagnitude(vec2, vec1);
    assert vec2.Keys + vec1.Keys == keys;
    assert Dot(vec1, vec1, keys) == 0.0 || Dot(vec2, vec2, keys) == 0.0;
    SquaresZero(vec1, keys);
    SquaresZero(vec2, keys);
    var d, m1, m2 := Dot(vec1, vec2, keys), Dot(vec1, vec1, keys), Dot(vec2, vec2, keys);
    assert Similarity(vec1, vec2, sqrt) == Normalize(d, m1, m2, sqrt);
    assert Normalize(d, m1, m2, sqrt) == 0.0;
  }

  /** A vector has zero squared magnitude exactly when all its weights are 0. */
  lemma ZeroMagnitudeIff(v: TermVector)
    ensures SquaredMagnitude(v) == 0.0 <==> forall k :: k in v ==> v[k] == 0.0
  {
    SquaresZero(v, v.Keys);
  }

  /** Cosine similarity is symmetric in its two arguments. */
  lemma SimilaritySymmetric(vec1: TermVector, vec2: TermVector, sqrt: real -> real)
    requires SqrtPositive(sqrt)
    ensures Similarity(vec1, vec2, sqrt) == Similarity(vec2, vec1, sqrt)
  {
    var keys := vec1.Keys + vec2.Keys;
    assert vec2.Keys + vec1.Keys == keys;
    DotSymmetric(vec1, vec2, keys);
    SquaresZero(vec1, keys);
    SquaresZero(vec2, keys);
    var d, m1, m2 := Dot(vec1, vec2, keys), Dot(vec1, vec1, keys), Dot(vec2, vec2, keys);
    assert Similarity(vec1, vec2, sqrt) == Normalize(d, m1, m2, sqrt);
    assert Similarity(vec2, vec1, sqrt) == Normalize(d, m2, m1, sqrt);
    assert sqrt(m1) * sqrt(m2) == sqrt(m2) * sqrt(m1);
  }

  /** A query that shares no term with a document scores 0 against it. */
  lemma NoSharedTermScoresZero(vec1: TermVector, vec2: TermVector, sqrt: real -> real)
    requires SqrtPositive(sqrt)
    requires vec1.Keys * vec2.Keys == {}
    ensures Similarity(vec1, vec2, sqrt) == 0.0
  {
    var keys := vec1.Keys + vec2.Keys;
    DotOverSharedKeys(vec1, vec2);
    assert Dot(vec1, vec2, keys) == 0.0;
    SquaresZero(vec1, keys);
    SquaresZero(vec2, keys);
    var m1, m2 := Dot(vec1, vec1, keys), Dot(vec2, vec2, keys);
    assert Similarity(vec1, vec2, sqrt) == Normalize(0.0, m1, m2, sqrt);
  }

  // ---------------------------------------------------------------------------
  // Ranking

  /**
   * Inserts `x` behind every element of `sorted` whose score is at least its own:
   * one step of a stable sort under the comparator `(a, b) => b.score - a.score`.
   */
  function Insert(sorted: seq<Scored>, x: Scored): (r: seq<Scored>)
    ensures |r| == |sorted| + 1
    decreases |sorted|
  {
    if sorted == [] || sorted[|sorted| - 1].score >= x.score then sorted + [x]
    else Insert(sorted[..|sorted| - 1], x) + [sorted[|sorted| - 1]]
  }

  /**
   * `scores.sort((a, b) => b.score - a.score)`: ECMAScript requires the sort to be
   * stable, and this insertion sort is the reference for the order it must produce.
   */
  function SortByScore(s: seq<Scored>): (r: seq<Scored>)
    ensures |r| == |s|
  {
    if s == [] then [] else Insert(SortByScore(s[..|s| - 1]), s[|s| - 1])
  }

  /** The end index `Array.prototype.slice(0, end)` stops at, on an array of length `n`. */
  function SliceEnd(end: int, n: nat): (e: nat)
    ensures e <= n
    ensures end >= 0 ==> e == if end < n then end else n
    ensures end < 0 ==> e == if n + end > 0 then n + end else 0
  {
    if end < 0 then (if n + end > 0 then n + end else 0)
    else if end < n then end else n
  }

  /** `scores.sort(...).slice(0, topK)` */
  function Rank(scores: seq<Scored>, topK: int): (r: seq<Scored>)
    ensures |r| == SliceEnd(topK, |scores|)
    ensures forall i :: 0 <= i < |r| ==> r[i] == SortByScore(scores)[i]
  {
    SortByScore(scores)[..SliceEnd(topK, |scores|)]
  }

  /** Scores are non-increasing from first to last. */
  ghost predicate NonIncreasing(s: seq<Scored>) {
    forall i, j :: 0 <= i < j < |s| ==> s[i].score >= s[j].score
  }

  /** The entries of `s` that have score `c`, in order. */
  function WithScore(s: seq<Scored>, c: real): seq<Scored> {
    if s == [] then []
    else WithScore(s[..|s| - 1], c) + (if s[|s| - 1].score == c then [s[|s| - 1]] else [])
  }

  lemma {:induction false} WithScoreAppend(a: seq<Scored>, b: seq<Scored>, c: real)
    ensures WithScore(a + b, c) == WithScore(a, c) + WithScore(b, c)
  {
    if b == [] {
      assert a + b == a;
    } else {
      assert (a + b)[..|a + b| - 1] == a + b[..|b| - 1];
      WithScoreAppend(a, b[..|b| - 1], c);
    }
  }

  lemma {:induction false} InsertMultiset(sorted: seq<Scored>, x: Scored)
    ensures multiset(Insert(sorted, x)) == multiset(sorted) + multiset{x}
    decreases |sorted|
  {
    if !(sorted == [] || sorted[|sorted| - 1].score >= x.score) {
      var init := sorted[..|sorted| - 1];
      InsertMultiset(init, x);
      assert sorted == init + [sorted[|sorted| - 1]];
    }
  }

  lemma {:induction false} InsertSorted(sorted: seq<Scored>, x: Scored)
    requires NonIncreasing(sorted)
    ensures NonIncreasing(Insert(sorted, x))
    decreases |sorted|
  {
    if !(sorted == [] || sorted[|sorted| - 1].score >= x.score) {
      var init := sorted[..|sorted| - 1];
      var last := sorted[|sorted| - 1];
      assert NonIncreasing(init);
      InsertSorted(init, x);
      InsertMultiset(init, x);
      var r := Insert(init, x);
      forall i | 0 <= i < |r|
        ensures r[i].score >= last.score
      {
        assert r[i] in multiset(r);
        assert r[i] in multiset(init) || r[i] == x;
        if r[i] != x {
          var k :| 0 <= k < |init| && init[k] == r[i];
          assert sorted[k] == init[k];
        }
      }
      AppendLowest(r, last);
    }
  }

  /** Appending an entry that scores no higher than any before it keeps the order. */
  lemma AppendLowest(r: seq<Scored>, last: Scored)
    requires NonIncreasing(r)
    requires forall i :: 0 <= i < |r| ==> r[i].score >= last.score
    ensures NonIncreasing(r + [last])
  {
    var s := r + [last];
    forall i, j | 0 <= i < j < |s|
      ensures s[i].score >= s[j].score
    {
      assert s[i] == r[i];
    }
  }

  /** A one-entry sequence keeps its entry exactly when the score matches. */
  lemma WithScoreSingle(y: Scored, c: real)
    ensures WithScore([y], c) == if y.score == c then [y] else []
  {
    assert [y][..0] == [];
  }

  lemma {:induction false} InsertStable(sorted: seq<Scored>, x: Scored, c: real)
    ensures WithScore(Insert(sorted, x), c) == WithScore(sorted, c) + WithScore([x], c)
    decreases |sorted|
  {
    if sorted == [] || sorted[|sorted| - 1].score >= x.score {
      WithScoreAppend(sorted, [x], c);
    } else {
      var init := sorted[..|sorted| - 1];
      var last := sorted[|sorted| - 1];
      WithScoreSingle(x, c);
      WithScoreSingle(last, c);
      InsertStable(init, x, c);
      WithScoreAppend(Insert(init, x), [last], c);
      // `last` scores below `x`, so at most one of the two has score `c`.
      SwapPastEmpty(WithScore(Insert(init, x), c), WithScore(init, c), WithScore([x], c), WithScore([last], c));
      assert WithScore(sorted, c) == WithScore(init, c) + WithScore([last], c);
      assert Insert(sorted, x) == Insert(init, x) + [last];
    }
  }

  /** Appending `q` after `a + p` is appending `p` after `a + q` when one of `p`, `q` is empty. */
  lemma SwapPastEmpty(ap: seq<Scored>, a: seq<Scored>, p: seq<Scored>, q: seq<Scored>)
    requires ap == a + p
    requires p == [] || q == []
    ensures ap + q == a + q + p
  {
    if p == [] {
      assert a + p == a && a + q + p == a + q;
    } else {
      assert ap + q == ap && a + q == a;
    }
  }

  /** The sort rearranges: it neither drops, duplicates nor invents an entry. */
  lemma {:induction false} SortPermutes(s: seq<Scored>)
    ensures multiset(SortByScore(s)) == multiset(s)
  {
    if s != [] {
      var init := s[..|s| - 1];
      SortPermutes(init);
      InsertMultiset(SortByScore(init), s[|s| - 1]);
      assert s == init + [s[|s| - 1]];
    }
  }

  /** The sort orders by descending score. */
  lemma {:induction false} SortOrders(s: seq<Scored>)
    ensures NonIncreasing(SortByScore(s))
  {
    if s != [] {
      SortOrders(s[..|s| - 1]);
      InsertSorted(SortByScore(s[..|s| - 1]), s[|s| - 1]);
    }
  }

  /** The sort is stable: the entries with any one score keep their input order. */
  lemma {:induction false} SortStable(s: seq<Scored>, c: real)
    ensures WithScore(SortByScore(s), c) == WithScore(s, c)
  {
    if s != [] {
      var init := s[..|s| - 1];
      SortStable(init, c);
      InsertStable(SortByScore(init), s[|s| - 1], c);
      WithScoreAppend(init, [s[|s| - 1]], c);
      assert s == init + [s[|s| - 1]];
    }
  }

  /** The ranking returns exactly `min(topK, n)` entries for a non-negative `topK`. */
  lemma RankLength(scores: seq<Scored>, topK: int)
    requires topK >= 0
    ensures |Rank(scores, topK)| == if topK < |scores| then topK else |scores|
  {
  }

  /** The ranked entries are in non-increasing score order. */
  lemma RankOrdered(scores: seq<Scored>, topK: int)
    ensures NonIncreasing(Rank(scores, topK))
  {
    SortOrders(scores);
  }

  /**
   * Every ranked entry is one of the scored entries, none is returned more often
   * than it was scored, and every entry left out scores no more than the last one returned.
   */
  lemma RankSelectsTop(scores: seq<Scored>, topK: int)
    ensures multiset(Rank(scores, topK)) <= multiset(scores)
    ensures |Rank(scores, topK)| > 0 ==>
      forall x :: x in multiset(scores) - multiset(Rank(scores, topK)) ==>
        x.score <= Rank(scores, topK)[|Rank(scores, topK)| - 1].score
  {
    var sorted := SortByScore(scores);
    var e := SliceEnd(topK, |scores|);
    SortPermutes(scores);
    SortOrders(scores);
    SplitMultiset(sorted, e);
    if e > 0 {
      TailBelowCut(sorted, e);
    }
  }

  /** The first ranked entry has the highest score of all scored entries. */
  lemma RankFirstIsMax(scores: seq<Scored>, topK: int)
    requires |Rank(scores, topK)| > 0
    ensures forall x :: x in scores ==> x.score <= Rank(scores, topK)[0].score
  {
    var sorted := SortByScore(scores);
    SortPermutes(scores);
    SortOrders(scores);
    forall x | x in scores
      ensures x.score <= sorted[0].score
    {
      assert x in multiset(sorted);
      var k :| 0 <= k < |sorted| && sorted[k] == x;
    }
  }

  /** Cutting a sequence splits its multiset into the multisets of the two parts. */
  lemma SplitMultiset(s: seq<Scored>, e: nat)
    requires e <= |s|
    ensures multiset(s[..e]) <= multiset(s)
    ensures multiset(s) - multiset(s[..e]) == multiset(s[e..])
  {
    assert s == s[..e] + s[e..];
  }

  /** In a non-increasing sequence every entry after the cut scores at most the entry just before it. */
  lemma TailBelowCut(s: seq<Scored>, e: nat)
    requires NonIncreasing(s) && 0 < e <= |s|
    ensures forall x :: x in multiset(s[e..]) ==> x.score <= s[..e][e - 1].score
  {
    forall x | x in multiset(s[e..])
      ensures x.score <= s[e - 1].score
    {
      var k :| 0 <= k < |s[e..]| && s[e..][k] == x;
      assert s[e + k] == x;
    }
  }

  /**
   * Stability of the ranking: for every score, the ranked entries of that score are
   * the first ones of that score in corpus order, in that order.
   */
  lemma RankStable(scores: seq<Scored>, topK: int, c: real)
    ensures exists rest :: WithScore(scores, c) == WithScore(Rank(scores, topK), c) + rest
  {
    var sorted := SortByScore(scores);
    var e := SliceEnd(topK, |scores|);
    assert sorted == sorted[..e] + sorted[e..];
    assert Rank(scores, topK) == sorted[..e];
    WithScoreAppend(sorted[..e], sorted[e..], c);
    SortStable(scores, c);
  }

  /** Entries with equal scores come out in the order they went in (corpus order). */
  lemma RankKeepsTies(scores: seq<Scored>, topK: int, i: nat, j: nat)
    requires i < j < |Rank(scores, topK)|
    requires Rank(scores, topK)[i].score == Rank(scores, topK)[j].score
    ensures exists i', j' :: 0 <= i' < j' < |scores| && scores[i'] == Rank(scores, topK)[i] && scores[j'] == Rank(scores, topK)[j]
  {
    var r := Rank(scores, topK);
    var c := r[i].score;
    var sorted := SortByScore(scores);
    SortStable(scores, c);
    WithScoreIndices(sorted, c, i, j);
    var a, b :| 0 <= a < b < |WithScore(sorted, c)| && WithScore(sorted, c)[a] == sorted[i] && WithScore(sorted, c)[b] == sorted[j];
    WithScoreOrigin(scores, c, a, b);
  }

  /** Two entries of score `c` at positions `i < j` are found in that order in `WithScore(s, c)`. */
  lemma {:induction false} WithScoreIndices(s: seq<Scored>, c: real, i: nat, j: nat)
    requires i < j < |s| && s[i].score == c && s[j].score == c
    ensures exists a, b :: 0 <= a < b < |WithScore(s, c)| && WithScore(s, c)[a] == s[i] && WithScore(s, c)[b] == s[j]
  {
    var init := s[..|s| - 1];
    if j == |s| - 1 {
      WithScoreMember(init, c, i);
      var a :| 0 <= a < |WithScore(init, c)| && WithScore(init, c)[a] == s[i];
      var w := WithScore(s, c);
      assert w == WithScore(init, c) + [s[j]];
      assert w[a] == s[i] && w[|w| - 1] == s[j];
    } else {
      WithScoreIndices(init, c, i, j);
      var a, b :| 0 <= a < b < |WithScore(init, c)| && WithScore(init, c)[a] == init[i] && WithScore(init, c)[b] == init[j];
      var w := WithScore(s, c);
      assert w[..|WithScore(init, c)|] == WithScore(init, c);
      assert w[a] == s[i] && w[b] == s[j];
    }
  }

  lemma {:induction false} WithScoreMember(s: seq<Scored>, c: real, i: nat)
    requires i < |s| && s[i].score == c
    ensures exists a :: 0 <= a < |WithScore(s, c)| && WithScore(s, c)[a] == s[i]
  {
    var init := s[..|s| - 1];
    var w := WithScore(s, c);
    if i == |s| - 1 {
      assert w[|w| - 1] == s[i];
    } else {
      WithScoreMember(init, c, i);
      var a :| 0 <= a < |WithScore(init, c)| && WithScore(init, c)[a] == init[i];
      assert w[..|WithScore(init, c)|] == WithScore(init, c);
      assert w[a] == s[i];
    }
  }

  /** Positions `a < b` of `WithScore(s, c)` come from positions `i < j` of `s`. */
  lemma {:induction false} WithScoreOrigin(s: seq<Scored>, c: real, a: nat, b: nat)
    requires a < b < |WithScore(s, c)|
    ensures exists i, j :: 0 <= i < j < |s| && s[i] == WithScore(s, c)[a] && s[j] == WithScore(s, c)[b]
  {
    var init := s[..|s| - 1];
    var w := WithScore(s, c);
    var wi := WithScore(init, c);
    assert w[..|wi|] == wi;
    if b < |wi| {
      WithScoreOrigin(init, c, a, b);
      var i, j :| 0 <= i < j < |init| && init[i] == wi[a] && init[j] == wi[b];
      assert s[i] == w[a] && s[j] == w[b];
    } else {
      assert w[b] == s[|s| - 1];
      WithScoreOrigin1(init, c, a);
      var i :| 0 <= i < |init| && init[i] == wi[a];
      assert s[i] == w[a];
    }
  }

  lemma {:induction false} WithScoreOrigin1(s: seq<Scored>, c: real, a: nat)
    requires a < |WithScore(s, c)|
    ensures exists i :: 0 <= i < |s| && s[i] == WithScore(s, c)[a]
  {
    var init := s[..|s| - 1];
    var w := WithScore(s, c);
    var wi := WithScore(init, c);
    assert w[..|wi|] == wi;
    if a < |wi| {
      WithScoreOrigin1(init, c, a);
      var i :| 0 <= i < |init| && init[i] == wi[a];
      assert s[i] == w[a];
    } else {
      assert w[a] == s[|s| - 1];
    }
  }

  /** Sorts `a` in place, stably, by descending score. */
  method SortInPlace(a: array<Scored>)
    modifies a
    ensures a[..] == SortByScore(old(a[..]))
  {
    ghost var input := a[..];
    var i := 0;
    while i < a.Length
      invariant 0 <= i <= a.Length
      invariant a[..i] == SortByScore(input[..i])
      invariant a[i..] == input[i..]
    {
      ghost var before := a[..];
      InsertInPlace(a, i);
      SortStep(input, before, a[..], i);
      i := i + 1;
    }
    assert a[..] == a[..a.Length];
    assert input[..a.Length] == input;
  }

  /** One pass of the outer loop of `SortInPlace`: the sorted prefix grows by one element. */
  lemma SortStep(input: seq<Scored>, before: seq<Scored>, after: seq<Scored>, i: nat)
    requires i < |input| == |before| == |after|
    requires before[..i] == SortByScore(input[..i]) && before[i..] == input[i..]
    requires after[..i + 1] == Insert(before[..i], before[i]) && after[i + 1..] == before[i + 1..]
    ensures after[..i + 1] == SortByScore(input[..i + 1]) && after[i + 1..] == input[i + 1..]
  {
    assert input[..i + 1][..i] == input[..i];
    assert before[i] == before[i..][0] == input[i];
    assert before[i + 1..] == before[i..][1..];
    assert input[i + 1..] == input[i..][1..];
  }

  /** Moves `a[i]` left past every element of the prefix `a[..i]` that scores less. */
  method InsertInPlace(a: array<Scored>, i: nat)
    requires i < a.Length
    modifies a
    ensures a[..i + 1] == Insert(old(a[..i]), old(a[i]))
    ensures a[i + 1..] == old(a[i + 1..])
  {
    ghost var t := a[..i];
    ghost var rest := a[i + 1..];
    var x := a[i];
    var j := i;
    assert a[..] == t[..j] + [x] + t[j..] + rest by {
      assert a[..] == a[..i] + [a[i]] + a[i + 1..];
    }
    assert Insert(t, x) == Insert(t[..j], x) + t[j..] by {
      assert t[..j] == t && t[j..] == [];
    }
    while j > 0 && a[j - 1].score < x.score
      invariant 0 <= j <= i
      invariant a[..] == t[..j] + [x] + t[j..] + rest
      invariant Insert(t, x) == Insert(t[..j], x) + t[j..]
    {
      ghost var cur := a[..];
      SwapStep(t, x, j, rest);
      assert Insert(t, x) == Insert(t[..j - 1], x) + t[j - 1..];
      a[j - 1], a[j] := a[j], a[j - 1];
      assert a[..] == cur[j - 1 := x][j := t[j - 1]];
      j := j - 1;
    }
    assert j > 0 ==> a[..][j - 1] == t[j - 1];
    InsertDone(t, x, j, rest);
    assert a[..i + 1] == a[..][..i + 1] && a[i + 1..] == a[..][i + 1..];
  }

  /** Where the swaps stop, the array holds `Insert(t, x)` followed by the untouched rest. */
  lemma InsertDone(t: seq<Scored>, x: Scored, j: nat, rest: seq<Scored>)
    requires j <= |t|
    requires j > 0 ==> t[j - 1].score >= x.score
    requires Insert(t, x) == Insert(t[..j], x) + t[j..]
    ensures (t[..j] + [x] + t[j..] + rest)[..|t| + 1] == Insert(t, x)
    ensures (t[..j] + [x] + t[j..] + rest)[|t| + 1..] == rest
  {
    assert Insert(t[..j], x) == t[..j] + [x] by {
      if j > 0 {
        assert t[..j][j - 1] == t[j - 1];
      }
    }
    var all := t[..j] + [x] + t[j..] + rest;
    assert all == Insert(t, x) + rest;
  }

  /** One swap: `x` moves one place left in the array and the insertion point follows it. */
  lemma SwapStep(t: seq<Scored>, x: Scored, j: nat, rest: seq<Scored>)
    requires 0 < j <= |t|
    requires (t[..j] + [x] + t[j..] + rest)[j - 1].score < x.score
    ensures Insert(t[..j], x) + t[j..] == Insert(t[..j - 1], x) + t[j - 1..]
    ensures (t[..j] + [x] + t[j..] + rest)[j - 1 := x][j := t[j - 1]] == t[..j - 1] + [x] + t[j - 1..] + rest
  {
    var before := t[..j] + [x] + t[j..] + rest;
    assert before[j - 1] == t[j - 1];
    assert t[..j][..j - 1] == t[..j - 1];
    assert t[..j][j - 1] == t[j - 1];
    assert t[j - 1..] == [t[j - 1]] + t[j..];
    var after := t[..j - 1] + [x] + t[j - 1..] + rest;
    assert |before[j - 1 := x][j := t[j - 1]]| == |after|;
    forall k | 0 <= k < |after|
      ensures before[j - 1 := x][j := t[j - 1]][k] == after[k]
    {
      if k < j - 1 {
        assert after[k] == t[k] && before[k] == t[k];
      } else if k > j {
        assert after[k] == before[k];
      }
    }
  }

  // ---------------------------------------------------------------------------
  // The retrieval state

  /** The score of document `i` of the corpus against the query vector. */
  ghost function ScoreOf(docs: seq<Doc>, corpus: seq<string>, query: TermVector,
                         listTerms: ListTerms, sqrt: real -> real, i: nat): (r: Scored)
    requires SqrtPositive(sqrt) && i < |docs|
    ensures r.text == docs[i].text && r.filename == docs[i].filename
    ensures r.score == Similarity(query, VectorOf(listTerms(corpus, i)), sqrt)
    ensures query.Keys * VectorOf(listTerms(corpus, i)).Keys == {} ==> r.score == 0.0
  {
    var d := VectorOf(listTerms(corpus, i));
    assert query.Keys * d.Keys == {} ==> Similarity(query, d, sqrt) == 0.0 by {
      if query.Keys * d.Keys == {} {
        NoSharedTermScoresZero(query, d, sqrt);
      }
    }
    Scored(docs[i].text, docs[i].filename, Similarity(query, VectorOf(listTerms(corpus, i)), sqrt))
  }

  /** `documents.map(...)`: every document scored against the query, in corpus order. */
  ghost function ScoreAll(docs: seq<Doc>, corpus: seq<string>, query: TermVector,
                          listTerms: ListTerms, sqrt: real -> real): (s: seq<Scored>)
    requires SqrtPositive(sqrt)
    ensures |s| == |docs|
  {
    seq(|docs|, i requires 0 <= i < |docs| => ScoreOf(docs, corpus, query, listTerms, sqrt, i))
  }

  /** The query's vector: `listTerms(0)` of a fresh TF-IDF instance holding only the question. */
  function QueryVector(question: string, listTerms: ListTerms): (v: TermVector)
    ensures v.Keys == set i | 0 <= i < |listTerms([question], 0)| :: listTerms([question], 0)[i].term
  {
    VectorOf(listTerms([question], 0))
  }

  /** A query sharing no term with any document gives every document score 0. */
  lemma NoSharedTermAllZero(docs: seq<Doc>, corpus: seq<string>, question: string,
                            listTerms: ListTerms, sqrt: real -> real)
    requires SqrtPositive(sqrt)
    requires forall i :: 0 <= i < |docs| ==> QueryVector(question, listTerms).Keys * VectorOf(listTerms(corpus, i)).Keys == {}
    ensures forall x :: x in ScoreAll(docs, corpus, QueryVector(question, listTerms), listTerms, sqrt) ==> x.score == 0.0
  {
    var q := QueryVector(question, listTerms);
    forall i | 0 <= i < |docs|
      ensures ScoreOf(docs, corpus, q, listTerms, sqrt, i).score == 0.0
    {
      NoSharedTermScoresZero(q, VectorOf(listTerms(corpus, i)), sqrt);
    }
  }

  /**
   * The module-level state of `retrieve.js`: the TF-IDF instance (absent until the
   * first load; otherwise the texts added to it, in order) and the loaded documents.
   */
  class Retriever {
    var tfidf: Option<seq<string>>
    var documents: seq<Doc>

    /** The TF-IDF instance holds exactly the texts of the loaded documents. */
    ghost predicate Valid()
      reads this
    {
      (tfidf.None? ==> documents == []) &&
      (tfidf.Some? ==> tfidf.value == Texts(documents))
    }

    /** Whether `retrieveDocuments` can run: a corpus was built and it is not empty. */
    predicate IsLoaded()
      reads this
      ensures Valid() ==> (IsLoaded() <==> |documents| > 0)
    {
      tfidf.Some? && |documents| > 0
    }

    /** The state when the module is first imported. */
    constructor ()
      ensures Valid() && tfidf == None && documents == []
    {
      tfidf := None;
      documents := [];
    }

    /**
     * `loadDocuments`: keeps the ".txt" names of the listing, discards the previous
     * corpus, reads and adds each file in order, and returns the number of documents.
     */
    method LoadDocuments(listing: seq<string>, readFile: string -> string) returns (count: nat)
      modifies this
      ensures Valid()
      ensures documents == LoadAll(TxtFiles(listing), readFile)
      ensures tfidf == Some(Texts(documents))
      ensures count == |documents| == |TxtFiles(listing)|
    {
      var files := TxtFiles(listing);
      tfidf := Some([]);
      documents := [];
      var i := 0;
      while i < |files|
        invariant 0 <= i <= |files|
        invariant documents == LoadAll(files[..i], readFile)
        invariant tfidf == Some(Texts(documents))
      {
        var content := readFile(files[i]);
        assert files[..i + 1] == files[..i] + [files[i]];
        assert Texts(documents + [Doc(files[i], content)]) == Texts(documents) + [content];
        tfidf := Some(tfidf.value + [content]);
        documents := documents + [Doc(files[i], content)];
        i := i + 1;
      }
      assert files[..i] == files;
      count := |documents|;
    }

    /**
     * `retrieveDocuments(question, topK)`: fails when nothing is loaded; otherwise
     * scores every document against the question, sorts and keeps the first `topK`.
     */
    method RetrieveDocuments(question: string, topK: int, listTerms: ListTerms, sqrt: real -> real)
      returns (r: Result<seq<Scored>>)
      requires Valid() && SqrtPositive(sqrt)
      ensures !IsLoaded() ==> r == Err(NotLoadedMessage)
      ensures IsLoaded() ==> r == Ok(Rank(ScoreAll(documents, Texts(documents), QueryVector(question, listTerms), listTerms, sqrt), topK))
    {
      if tfidf.None? || |documents| == 0 {
        return Err(NotLoadedMessage);
      }
      var corpus := tfidf.value;
      var queryVector := BuildVector(listTerms([question], 0));
      var n := |documents|;
      var scores := new Scored[n];
      var i := 0;
      while i < n
        invariant 0 <= i <= n
        invariant forall k :: 0 <= k < i ==> scores[k] == ScoreOf(documents, corpus, queryVector, listTerms, sqrt, k)
      {
        var docVector := BuildVector(listTerms(corpus, i));
        var similarity := CosineSimilarity(queryVector, docVector, sqrt);
        scores[i] := Scored(documents[i].text, documents[i].filename, similarity);
        i := i + 1;
      }
      assert scores[..] == ScoreAll(documents, corpus, queryVector, listTerms, sqrt);
      SortInPlace(scores);
      r := Ok(scores[..SliceEnd(topK, n)]);
    }
  }
}
