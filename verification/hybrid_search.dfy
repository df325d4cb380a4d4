/** `QdrantVectorStore.search_hybrid` (src/repositories/file_text_vector_store.py):
    weight normalisation, the merge of the semantic and keyword hit lists by
    `(file_id, page_number)`, the stable descending sort on the combined score
    and the final `[:limit]` slice. The two sub-searches are oracles; scores
    and weights are exact reals. */
module HybridSearch {
  import opened Base

  datatype SearchType = Semantic | Keyword

  /** One result dictionary of `search_semantic` or `search_keyword`. */
  datatype Hit = Hit(fileId: int, pageNumber: int, filename: string, snippet: string,
                     score: real, searchType: SearchType)

  /** The merge key `(file_id, page_number)`. */
  datatype Key = Key(fileId: int, pageNumber: int)

  function KeyOf(h: Hit): Key {
    Key(h.fileId, h.pageNumber)
  }

  /** A merged result: the copied hit dictionary plus its `combined_score`. */
  datatype Ranked = Ranked(hit: Hit, combined: real)

  /** A hit as the merge loop sees it, with the weight of the list it came from. */
  datatype Weighted = Weighted(hit: Hit, weight: real)

  /** The weights after normalisation: each divided by their total when the
      total is positive, otherwise one half each. Either way they sum to 1. */
  function NormaliseWeights(semantic: real, keyword: real): (w: (real, real))
    ensures w.0 + w.1 == 1.0
    ensures semantic + keyword > 0.0 ==>
      w.0 * (semantic + keyword) == semantic && w.1 * (semantic + keyword) == keyword
    ensures semantic + keyword <= 0.0 ==> w == (0.5, 0.5)
    ensures semantic >= 0.0 && keyword >= 0.0 ==> 0.0 <= w.0 <= 1.0 && 0.0 <= w.1 <= 1.0
  {
    var total := semantic + keyword;
    if total > 0.0 then (semantic / total, keyword / total) else (0.5, 0.5)
  }

  /** Some hit of `ws` has key `k`. */
  predicate HasKey(ws: seq<Weighted>, k: Key) {
    ws != [] && (KeyOf(ws[|ws| - 1].hit) == k || HasKey(ws[..|ws| - 1], k))
  }

  /** `HasKey` is the existence of a hit with the key. */
  lemma {:induction false} HasKeyIff(ws: seq<Weighted>, k: Key)
    ensures HasKey(ws, k) <==> exists j | 0 <= j < |ws| :: KeyOf(ws[j].hit) == k
  {
    if ws != [] {
      var init := ws[..|ws| - 1];
      HasKeyIff(init, k);
      assert forall j | 0 <= j < |init| :: init[j] == ws[j];
    }
  }

  /** The distinct keys of `ws` in order of first appearance (reference
      definition of the key order of the merged dictionary). */
  function Keys(ws: seq<Weighted>): (ks: seq<Key>)
    ensures forall i, j | 0 <= i < j < |ks| :: ks[i] != ks[j]
    ensures forall k :: k in ks <==> HasKey(ws, k)
  {
    if ws == [] then []
    else
      var ks := Keys(ws[..|ws| - 1]);
      var last := KeyOf(ws[|ws| - 1].hit);
      if last in ks then ks else ks + [last]
  }

  /** The position of the first hit with key `k`: no earlier hit has it. */
  function FirstHit(ws: seq<Weighted>, k: Key): (j: nat)
    requires HasKey(ws, k)
    ensures j < |ws| && KeyOf(ws[j].hit) == k
    ensures !HasKey(ws[..j], k)
  {
    var init := ws[..|ws| - 1];
    if HasKey(init, k) then
      var j := FirstHit(init, k);
      assert ws[..j] == init[..j];
      j
    else
      assert ws[..|ws| - 1] == init;
      |ws| - 1
  }

  /** What one hit adds to its key's combined score: `score * weight`. */
  function Contribution(w: Weighted): real {
    w.hit.score * w.weight
  }

  /** The sum of the weighted scores of the hits with key `k`. */
  function WeightedSum(ws: seq<Weighted>, k: Key): real {
    if ws == [] then 0.0
    else
      var last := ws[|ws| - 1];
      WeightedSum(ws[..|ws| - 1], k) + (if KeyOf(last.hit) == k then Contribution(last) else 0.0)
  }

  /** The position of the entry with key `k` in the merged list, if any. */
  function FindKey(m: seq<Ranked>, k: Key): (r: Option<nat>)
    ensures r.Some? ==> r.value < |m| && KeyOf(m[r.value].hit) == k
    ensures r.None? ==> forall i | 0 <= i < |m| :: KeyOf(m[i].hit) != k
  {
    if m == [] then None
    else if KeyOf(m[|m| - 1].hit) == k then Some(|m| - 1)
    else FindKey(m[..|m| - 1], k)
  }

  /** One iteration of a merge loop: a new key gets a copy of the hit with
      score times weight; a known key adds score times weight to its entry. */
  function AddHit(m: seq<Ranked>, w: Weighted): seq<Ranked> {
    match FindKey(m, KeyOf(w.hit))
    case None => m + [Ranked(w.hit, Contribution(w))]
    case Some(i) => m[i := m[i].(combined := m[i].combined + Contribution(w))]
  }

  /** The values of the `merged` dictionary after both loops: one entry per
      distinct key, in order of first appearance, holding the first hit with
      that key and the weighted sum of all scores with that key. */
  function Merge(ws: seq<Weighted>): (m: seq<Ranked>)
    ensures IsMergeOf(m, ws)
  {
    if ws == [] then []
    else
      var init := ws[..|ws| - 1];
      var last := ws[|ws| - 1];
      var m0 := Merge(init);
      assert ws == init + [last];
      MergeStep(init, last, m0);
      AddHit(m0, last)
  }

  lemma MergeStep(init: seq<Weighted>, last: Weighted, m0: seq<Ranked>)
    requires IsMergeOf(m0, init)
    ensures IsMergeOf(AddHit(m0, last), init + [last])
  {
    match FindKey(m0, KeyOf(last.hit))
    case None =>
      MergeNewKey(init, last, m0);
    case Some(j) =>
      MergeKnownKey(init, last, m0, j);
  }

  /** `m` has one entry per distinct key of `ws`, in order of first
      appearance, each holding the first hit with its key and the weighted
      sum of the scores of all hits with its key. */
  predicate IsMergeOf(m: seq<Ranked>, ws: seq<Weighted>) {
    && |m| == |Keys(ws)|
    && (forall i | 0 <= i < |m| :: KeyOf(m[i].hit) == Keys(ws)[i])
    && (forall i | 0 <= i < |m| :: HasKey(ws, KeyOf(m[i].hit)) && m[i].hit == ws[FirstHit(ws, KeyOf(m[i].hit))].hit)
    && (forall i | 0 <= i < |m| :: m[i].combined == WeightedSum(ws, KeyOf(m[i].hit)))
  }

  /** Appending a hit keeps the first hit and adds to the sum of every key
      that was already present. */
  lemma SnocKeepsKey(init: seq<Weighted>, last: Weighted, k: Key)
    requires HasKey(init, k)
    ensures HasKey(init + [last], k)
    ensures FirstHit(init + [last], k) == FirstHit(init, k)
    ensures (init + [last])[FirstHit(init, k)] == init[FirstHit(init, k)]
    ensures WeightedSum(init + [last], k)
         == WeightedSum(init, k) + (if KeyOf(last.hit) == k then Contribution(last) else 0.0)
  {
    var ws := init + [last];
    assert ws[..|ws| - 1] == init;
  }

  /** A key that has no hit sums to zero. */
  lemma {:induction false} WeightedSumAbsent(ws: seq<Weighted>, k: Key)
    requires !HasKey(ws, k)
    ensures WeightedSum(ws, k) == 0.0
  {
    if ws != [] {
      WeightedSumAbsent(ws[..|ws| - 1], k);
    }
  }

  lemma AddHitNew(m0: seq<Ranked>, last: Weighted)
    requires FindKey(m0, KeyOf(last.hit)).None?
    ensures AddHit(m0, last) == m0 + [Ranked(last.hit, Contribution(last))]
  {
  }

  lemma AddHitKnown(m0: seq<Ranked>, last: Weighted, j: nat)
    requires FindKey(m0, KeyOf(last.hit)) == Some(j)
    ensures AddHit(m0, last) == m0[j := m0[j].(combined := m0[j].combined + Contribution(last))]
  {
  }

  lemma MergeNewKey(init: seq<Weighted>, last: Weighted, m0: seq<Ranked>)
    requires IsMergeOf(m0, init)
    requires FindKey(m0, KeyOf(last.hit)).None?
    ensures IsMergeOf(AddHit(m0, last), init + [last])
  {
    AddHitNew(m0, last);
    var ws := init + [last];
    var k := KeyOf(last.hit);
    var m := m0 + [Ranked(last.hit, Contribution(last))];
    assert ws[..|ws| - 1] == init;
    assert k !in Keys(init);
    assert Keys(ws) == Keys(init) + [k];
    assert HasKey(ws, k) by { assert ws[|ws| - 1] == last; }
    assert FirstHit(ws, k) == |init|;
    WeightedSumAbsent(init, k);
    assert WeightedSum(ws, k) == Contribution(last);
    forall i | 0 <= i < |m0|
      ensures HasKey(ws, KeyOf(m[i].hit)) && m[i].hit == ws[FirstHit(ws, KeyOf(m[i].hit))].hit
      ensures m[i].combined == WeightedSum(ws, KeyOf(m[i].hit))
    {
      assert m[i] == m0[i];
      SnocKeepsKey(init, last, KeyOf(m0[i].hit));
    }
  }

  lemma MergeKnownKey(init: seq<Weighted>, last: Weighted, m0: seq<Ranked>, j: nat)
    requires IsMergeOf(m0, init)
    requires FindKey(m0, KeyOf(last.hit)) == Some(j)
    ensures IsMergeOf(AddHit(m0, last), init + [last])
  {
    AddHitKnown(m0, last, j);
    var ws := init + [last];
    var m := m0[j := m0[j].(combined := m0[j].combined + Contribution(last))];
    assert ws[..|ws| - 1] == init;
    assert KeyOf(last.hit) in Keys(init);
    assert Keys(ws) == Keys(init);
    forall i | 0 <= i < |m|
      ensures HasKey(ws, KeyOf(m[i].hit)) && m[i].hit == ws[FirstHit(ws, KeyOf(m[i].hit))].hit
      ensures m[i].combined == WeightedSum(ws, KeyOf(m[i].hit))
    {
      SnocKeepsKey(init, last, KeyOf(m0[i].hit));
      if i != j {
        assert Keys(init)[i] != Keys(init)[j];
      }
    }
  }

  /** The hits of one list, each paired with the weight of that list. */
  function Weigh(hits: seq<Hit>, weight: real): (ws: seq<Weighted>)
    ensures |ws| == |hits|
    ensures forall i | 0 <= i < |ws| :: ws[i] == Weighted(hits[i], weight)
  {
    seq(|hits|, i requires 0 <= i < |hits| => Weighted(hits[i], weight))
  }

  /** Some hit of the list has key `k`. */
  predicate Mentions(hits: seq<Hit>, k: Key) {
    exists j | 0 <= j < |hits| :: KeyOf(hits[j]) == k
  }

  /** The sum of the raw scores of the hits with key `k`. */
  function ScoreSum(hits: seq<Hit>, k: Key): real {
    if hits == [] then 0.0
    else
      var last := hits[|hits| - 1];
      ScoreSum(hits[..|hits| - 1], k) + (if KeyOf(last) == k then last.score else 0.0)
  }

  /** The sum of `score * weight` over the hits with key `k`, in list order. */
  function ScaledSum(hits: seq<Hit>, weight: real, k: Key): real {
    if hits == [] then 0.0
    else
      var last := hits[|hits| - 1];
      ScaledSum(hits[..|hits| - 1], weight, k) + (if KeyOf(last) == k then last.score * weight else 0.0)
  }

  /** Weighting a list contributes `score * weight` per hit of the key. */
  lemma {:induction false} WeightedSumOfWeigh(hits: seq<Hit>, weight: real, k: Key)
    ensures WeightedSum(Weigh(hits, weight), k) == ScaledSum(hits, weight, k)
  {
    if hits != [] {
      var init := hits[..|hits| - 1];
      var ws := Weigh(hits, weight);
      assert ws[..|ws| - 1] == Weigh(init, weight);
      WeightedSumOfWeigh(init, weight, k);
    }
  }

  /** Summing scaled scores is scaling the sum of the scores. */
  lemma {:induction false} ScaledSumFactors(hits: seq<Hit>, weight: real, k: Key)
    ensures ScaledSum(hits, weight, k) == weight * ScoreSum(hits, k)
  {
    if hits != [] {
      var init := hits[..|hits| - 1];
      var last := hits[|hits| - 1];
      ScaledSumFactors(init, weight, k);
      var add := if KeyOf(last) == k then last.score else 0.0;
      Distributes(weight, ScoreSum(init, k), add);
    }
  }

  lemma Distributes(x: real, a: real, b: real)
    ensures x * (a + b) == x * a + x * b
  {
  }

  /** The sums of a concatenation add up. */
  lemma {:induction false} WeightedSumConcat(a: seq<Weighted>, b: seq<Weighted>, k: Key)
    ensures WeightedSum(a + b, k) == WeightedSum(a, k) + WeightedSum(b, k)
  {
    if b != [] {
      var b0 := b[..|b| - 1];
      assert (a + b)[..|a + b| - 1] == a + b0;
      WeightedSumConcat(a, b0, k);
    } else {
      assert a + b == a;
    }
  }

  /** A hit of the first part of a concatenation stays the first hit of its key. */
  lemma {:induction false} FirstHitConcat(a: seq<Weighted>, b: seq<Weighted>, k: Key)
    requires HasKey(a, k)
    ensures HasKey(a + b, k) && FirstHit(a + b, k) == FirstHit(a, k)
  {
    if b != [] {
      var b0 := b[..|b| - 1];
      FirstHitConcat(a, b0, k);
      assert a + b == (a + b0) + [b[|b| - 1]];
      SnocKeepsKey(a + b0, b[|b| - 1], k);
    } else {
      assert a + b == a;
    }
  }

  lemma MentionsWeigh(hits: seq<Hit>, weight: real, k: Key)
    ensures HasKey(Weigh(hits, weight), k) <==> Mentions(hits, k)
  {
    HasKeyIff(Weigh(hits, weight), k);
  }

  /** The list the two merge loops walk through: the semantic hits weighted by
      the semantic weight, then the keyword hits weighted by the keyword weight. */
  function Walk(semantic: seq<Hit>, keyword: seq<Hit>, w: (real, real)): seq<Weighted> {
    Weigh(semantic, w.0) + Weigh(keyword, w.1)
  }

  /** The combined score of a key: the semantic weight times the sum of its
      semantic scores plus the keyword weight times the sum of its keyword
      scores. */
  lemma CombinedScore(semantic: seq<Hit>, keyword: seq<Hit>, w: (real, real), k: Key)
    ensures WeightedSum(Walk(semantic, keyword, w), k) == ScaledSum(semantic, w.0, k) + ScaledSum(keyword, w.1, k)
  {
    var a := Weigh(semantic, w.0);
    var b := Weigh(keyword, w.1);
    WeightedSumConcat(a, b, k);
    WeightedSumOfWeigh(semantic, w.0, k);
    WeightedSumOfWeigh(keyword, w.1, k);
  }

  /** The hits of the walk are those of the two lists, and a key has a hit in
      the walk exactly when one of the lists mentions it. */
  lemma WalkHits(semantic: seq<Hit>, keyword: seq<Hit>, w: (real, real))
    ensures forall j | 0 <= j < |Walk(semantic, keyword, w)| ::
      Walk(semantic, keyword, w)[j].hit in semantic || Walk(semantic, keyword, w)[j].hit in keyword
    ensures forall k :: HasKey(Walk(semantic, keyword, w), k) <==> Mentions(semantic, k) || Mentions(keyword, k)
  {
    var a := Weigh(semantic, w.0);
    var b := Weigh(keyword, w.1);
    var ws := a + b;
    forall j | 0 <= j < |ws| ensures ws[j].hit in semantic || ws[j].hit in keyword {
      if j < |a| {
        assert ws[j] == a[j];
      } else {
        assert ws[j] == b[j - |a|];
      }
    }
    forall k ensures HasKey(ws, k) <==> Mentions(semantic, k) || Mentions(keyword, k) {
      HasKeyIff(ws, k);
      MentionsWeigh(semantic, w.0, k);
      MentionsWeigh(keyword, w.1, k);
      HasKeyIff(a, k);
      HasKeyIff(b, k);
      if HasKey(ws, k) {
        var j :| 0 <= j < |ws| && KeyOf(ws[j].hit) == k;
        if j < |a| {
          assert ws[j] == a[j];
        } else {
          assert ws[j] == b[j - |a|];
        }
      }
      if HasKey(a, k) {
        var j :| 0 <= j < |a| && KeyOf(a[j].hit) == k;
        assert ws[j] == a[j];
      }
      if HasKey(b, k) {
        var j :| 0 <= j < |b| && KeyOf(b[j].hit) == k;
        assert ws[|a| + j] == b[j];
      }
    }
  }

  /** A key that some semantic hit has keeps the first such semantic hit:
      semantic hits are merged before keyword hits. */
  lemma SemanticHitsFirst(semantic: seq<Hit>, keyword: seq<Hit>, w: (real, real), k: Key)
    requires Mentions(semantic, k)
    ensures HasKey(Walk(semantic, keyword, w), k)
    ensures Walk(semantic, keyword, w)[FirstHit(Walk(semantic, keyword, w), k)].hit in semantic
  {
    var a := Weigh(semantic, w.0);
    MentionsWeigh(semantic, w.0, k);
    FirstHitConcat(a, Weigh(keyword, w.1), k);
    var f := FirstHit(a, k);
    assert (a + Weigh(keyword, w.1))[f] == a[f];
  }

  /** Scores never increase along `s`. */
  predicate NonIncreasing(s: seq<Ranked>) {
    forall i, j | 0 <= i < j < |s| :: s[i].combined >= s[j].combined
  }

  /** Places `x` after every entry of `s` whose score is at least its own:
      one step of the insertion sort. */
  function Insert(s: seq<Ranked>, x: Ranked): (r: seq<Ranked>)
    ensures |r| == |s| + 1
    decreases |s|
  {
    if s == [] || s[|s| - 1].combined >= x.combined then s + [x]
    else Insert(s[..|s| - 1], x) + [s[|s| - 1]]
  }

  /** Inserting into a non-increasing sequence keeps it non-increasing and
      adds exactly `x`. */
  lemma {:induction false} InsertFacts(s: seq<Ranked>, x: Ranked)
    requires NonIncreasing(s)
    ensures NonIncreasing(Insert(s, x))
    ensures forall i | 0 <= i < |Insert(s, x)| :: Insert(s, x)[i] in s || Insert(s, x)[i] == x
    ensures multiset(Insert(s, x)) == multiset(s) + multiset{x}
    decreases |s|
  {
    if !(s == [] || s[|s| - 1].combined >= x.combined) {
      var init := s[..|s| - 1];
      var last := s[|s| - 1];
      assert s == init + [last];
      InsertFacts(init, x);
      InsertAbove(init, last, x, Insert(init, x));
    }
  }

  /** Appending an entry scored below everything keeps the order. */
  lemma InsertAbove(init: seq<Ranked>, last: Ranked, x: Ranked, t: seq<Ranked>)
    requires NonIncreasing(init + [last])
    requires last.combined < x.combined
    requires NonIncreasing(t)
    requires forall i | 0 <= i < |t| :: t[i] in init || t[i] == x
    ensures NonIncreasing(t + [last])
    ensures forall i | 0 <= i < |t + [last]| :: (t + [last])[i] in init + [last] || (t + [last])[i] == x
  {
    forall i | 0 <= i < |t| ensures t[i].combined >= last.combined {
      if t[i] in init {
        var j :| 0 <= j < |init| && init[j] == t[i];
        assert (init + [last])[j] == init[j] && (init + [last])[|init|] == last;
      }
    }
  }

  /** `sorted(..., key=combined_score, reverse=True)`: a rearrangement of the
      entries with scores in non-increasing order. */
  function SortDesc(rs: seq<Ranked>): (r: seq<Ranked>)
    ensures NonIncreasing(r)
    ensures multiset(r) == multiset(rs)
  {
    if rs == [] then []
    else
      var init, last := rs[..|rs| - 1], rs[|rs| - 1];
      var t := SortDesc(init);
      assert rs == init + [last];
      InsertFacts(t, last);
      Insert(t, last)
  }

  /** The entries of `s` whose score is exactly `c`, in order. */
  function WithScore(s: seq<Ranked>, c: real): seq<Ranked> {
    if s == [] then []
    else WithScore(s[..|s| - 1], c) + (if s[|s| - 1].combined == c then [s[|s| - 1]] else [])
  }

  lemma WithScoreSnoc(s: seq<Ranked>, x: Ranked, c: real)
    ensures WithScore(s + [x], c) == WithScore(s, c) + (if x.combined == c then [x] else [])
  {
    assert (s + [x])[..|s|] == s;
  }

  lemma {:induction false} WithScoreInsert(s: seq<Ranked>, x: Ranked, c: real)
    ensures WithScore(Insert(s, x), c) == WithScore(s, c) + (if x.combined == c then [x] else [])
    decreases |s|
  {
    if s == [] || s[|s| - 1].combined >= x.combined {
      WithScoreSnoc(s, x, c);
    } else {
      var init := s[..|s| - 1];
      var last := s[|s| - 1];
      WithScoreInsert(init, x, c);
      WithScoreSnoc(Insert(init, x), last, c);
      WithScoreSnoc(init, last, c);
    }
  }

  /** The sort is stable: the entries that share a score keep their order. */
  lemma {:induction false} SortDescStable(rs: seq<Ranked>, c: real)
    ensures WithScore(SortDesc(rs), c) == WithScore(rs, c)
  {
    if rs != [] {
      var init := rs[..|rs| - 1];
      SortDescStable(init, c);
      WithScoreInsert(SortDesc(init), rs[|rs| - 1], c);
    }
  }

  /** Python's `s[:limit]`, where a negative limit drops that many entries
      from the end: a prefix of `s` of the length Python's slice has. */
  function SliceTo<T>(s: seq<T>, limit: int): (r: seq<T>)
    ensures r <= s
    ensures limit >= 0 ==> |r| == Min(limit, |s|)
    ensures limit < 0 ==> |r| == if |s| + limit >= 0 then |s| + limit else 0
  {
    if limit >= 0 then s[..Min(limit, |s|)]
    else if |s| + limit >= 0 then s[..|s| + limit]
    else []
  }

  /** No two entries of `s` share a key. */
  predicate DistinctKeys(s: seq<Ranked>) {
    forall i, j | 0 <= i < j < |s| :: KeyOf(s[i].hit) != KeyOf(s[j].hit)
  }

  /** Every entry that the slice dropped scores no higher than any it kept. */
  predicate KeepsTop(m: seq<Ranked>, r: seq<Ranked>) {
    forall x, i | x in m && x !in r && 0 <= i < |r| :: x.combined <= r[i].combined
  }

  /** A value that occurs at two positions is counted twice. */
  lemma CountAtTwo<T>(s: seq<T>, i: nat, j: nat)
    requires i < j < |s|
    ensures multiset(s)[s[i]] >= 1 + (if s[j] == s[i] then 1 else 0)
  {
    assert s == s[..j] + [s[j]] + s[j + 1..];
    assert s[i] in s[..j];
  }

  /** A sequence without repeated values counts each value at most once. */
  lemma {:induction false} CountWithoutRepeats<T>(s: seq<T>, x: T)
    requires forall i, j | 0 <= i < j < |s| :: s[i] != s[j]
    ensures multiset(s)[x] <= 1
  {
    if s != [] {
      var init := s[..|s| - 1];
      assert s == init + [s[|s| - 1]];
      CountWithoutRepeats(init, x);
      assert forall j | 0 <= j < |init| :: init[j] == s[j];
      assert s[|s| - 1] !in init;
    }
  }

  /** A rearrangement of a sequence without repeats has none either. */
  lemma NoRepeatsPermuted<T>(a: seq<T>, b: seq<T>)
    requires multiset(a) == multiset(b)
    requires forall i, j | 0 <= i < j < |a| :: a[i] != a[j]
    ensures forall i, j | 0 <= i < j < |b| :: b[i] != b[j]
  {
    forall i, j | 0 <= i < j < |b| ensures b[i] != b[j] {
      CountAtTwo(b, i, j);
      CountWithoutRepeats(a, b[i]);
    }
  }

  /** The entries of a prefix that share a score are a prefix of those of
      the whole sequence. */
  lemma {:induction false} WithScorePrefix(p: seq<Ranked>, s: seq<Ranked>, c: real)
    requires p <= s
    ensures WithScore(p, c) <= WithScore(s, c)
  {
    if |p| < |s| {
      var init := s[..|s| - 1];
      assert p <= init;
      WithScorePrefix(p, init, c);
    } else {
      assert p == s;
    }
  }

  /** A rearrangement has the same length and the same members. */
  lemma PermutedMembers(m: seq<Ranked>, sorted: seq<Ranked>)
    requires multiset(sorted) == multiset(m)
    ensures |sorted| == |m|
    ensures forall i | 0 <= i < |sorted| :: sorted[i] in m
    ensures forall x | x in m :: x in sorted
  {
    assert |multiset(sorted)| == |multiset(m)|;
    forall i | 0 <= i < |sorted| ensures sorted[i] in m {
      assert sorted[i] in multiset(sorted);
    }
    forall x | x in m ensures x in sorted {
      assert x in multiset(m);
    }
  }

  /** A merge holds each key once. */
  lemma MergeDistinct(ws: seq<Weighted>)
    ensures DistinctKeys(Merge(ws))
  {
    var m := Merge(ws);
    assert forall i | 0 <= i < |m| :: KeyOf(m[i].hit) == Keys(ws)[i];
  }

  /** A rearrangement of entries with distinct keys has distinct keys. */
  lemma DistinctKeysPermuted(m: seq<Ranked>, sorted: seq<Ranked>)
    requires DistinctKeys(m)
    requires multiset(sorted) == multiset(m)
    ensures DistinctKeys(sorted)
  {
    PermutedMembers(m, sorted);
    NoRepeatsPermuted(m, sorted);
    forall i, j | 0 <= i < j < |sorted| ensures KeyOf(sorted[i].hit) != KeyOf(sorted[j].hit) {
      var a :| 0 <= a < |m| && m[a] == sorted[i];
      var b :| 0 <= b < |m| && m[b] == sorted[j];
      assert a != b;
    }
  }

  /** Sorting a merge keeps each key once. */
  lemma SortedMergeDistinct(ws: seq<Weighted>)
    ensures DistinctKeys(SortDesc(Merge(ws)))
  {
    MergeDistinct(ws);
    DistinctKeysPermuted(Merge(ws), SortDesc(Merge(ws)));
  }

  /** A prefix of a non-increasing rearrangement keeps the top entries. */
  lemma PrefixKeepsTop(m: seq<Ranked>, sorted: seq<Ranked>, r: seq<Ranked>)
    requires NonIncreasing(sorted)
    requires forall x | x in m :: x in sorted
    requires r <= sorted
    ensures KeepsTop(m, r)
  {
    assert forall i | 0 <= i < |r| :: r[i] == sorted[i];
    forall x, i | x in m && x !in r && 0 <= i < |r| ensures x.combined <= r[i].combined {
      var j :| 0 <= j < |sorted| && sorted[j] == x;
      assert j >= |r|;
    }
  }

  /** What sorting entries with distinct keys and slicing the result
      guarantees: a prefix of a stable, non-increasing rearrangement that
      keeps the top entries and no key twice. */
  lemma Ranking(m: seq<Ranked>, limit: int)
    requires DistinctKeys(m)
    ensures var r := SliceTo(SortDesc(m), limit);
      && NonIncreasing(r)
      && DistinctKeys(r)
      && (forall i | 0 <= i < |r| :: r[i] in m)
      && (limit >= 0 ==> |r| == Min(limit, |m|))
      && KeepsTop(m, r)
      && (forall c :: WithScore(r, c) <= WithScore(m, c))
  {
    var sorted := SortDesc(m);
    var r := SliceTo(sorted, limit);
    PermutedMembers(m, sorted);
    DistinctKeysPermuted(m, sorted);
    PrefixKeepsTop(m, sorted, r);
    assert forall i | 0 <= i < |r| :: r[i] == sorted[i];
    forall c ensures WithScore(r, c) <= WithScore(m, c) {
      SortDescStable(m, c);
      WithScorePrefix(r, sorted, c);
    }
  }

  /** The ranking of a merge: as `Ranking`, with one entry per distinct key
      before the slice. */
  lemma RankingFacts(ws: seq<Weighted>, limit: int)
    ensures var m := Merge(ws);
      var r := SliceTo(SortDesc(m), limit);
      && NonIncreasing(r)
      && DistinctKeys(r)
      && (forall i | 0 <= i < |r| :: r[i] in m)
      && (limit >= 0 ==> |r| == Min(limit, |Keys(ws)|))
      && KeepsTop(m, r)
      && (forall c :: WithScore(r, c) <= WithScore(m, c))
  {
    MergeDistinct(ws);
    Ranking(Merge(ws), limit);
  }

  /** The combined score a key should have: the sum over the semantic hits
      with that key of score times the semantic weight, plus the same over
      the keyword hits with the keyword weight. By `ScaledSumFactors` each
      part is the weight times the plain sum of that list's scores. */
  function ExpectedScore(semantic: seq<Hit>, keyword: seq<Hit>, w: (real, real), k: Key): real {
    ScaledSum(semantic, w.0, k) + ScaledSum(keyword, w.1, k)
  }

  /** Each merged entry is a hit of one of the two lists, a semantic one when
      the key has any. */
  lemma EntryHit(semantic: seq<Hit>, keyword: seq<Hit>, w: (real, real))
    ensures forall x | x in Merge(Walk(semantic, keyword, w)) ::
      && (x.hit in semantic || x.hit in keyword)
      && (Mentions(semantic, KeyOf(x.hit)) ==> x.hit in semantic)
  {
    var m := Merge(Walk(semantic, keyword, w));
    WalkHits(semantic, keyword, w);
    forall x | x in m
      ensures x.hit in semantic || x.hit in keyword
      ensures Mentions(semantic, KeyOf(x.hit)) ==> x.hit in semantic
    {
      var a :| 0 <= a < |m| && m[a] == x;
      if Mentions(semantic, KeyOf(x.hit)) {
        SemanticHitsFirst(semantic, keyword, w, KeyOf(x.hit));
      }
    }
  }

  /** Each merged entry's combined score is the weighted sum of its key's
      semantic and keyword scores. */
  lemma EntryScore(semantic: seq<Hit>, keyword: seq<Hit>, w: (real, real))
    ensures forall x | x in Merge(Walk(semantic, keyword, w)) ::
      x.combined == ExpectedScore(semantic, keyword, w, KeyOf(x.hit))
  {
    var m := Merge(Walk(semantic, keyword, w));
    forall x | x in m ensures x.combined == ExpectedScore(semantic, keyword, w, KeyOf(x.hit)) {
      var a :| 0 <= a < |m| && m[a] == x;
      CombinedScore(semantic, keyword, w, KeyOf(x.hit));
    }
  }

  /** `search_hybrid(query, limit, semantic_weight, keyword_weight)` with the
      two sub-searches as oracles taking `(query, limit)`. */
  function SearchHybrid(query: string, limit: int, semanticWeight: real, keywordWeight: real,
                        searchSemantic: (string, int) -> seq<Hit>,
                        searchKeyword: (string, int) -> seq<Hit>): (r: seq<Ranked>)
    ensures var w := NormaliseWeights(semanticWeight, keywordWeight);
      var semantic := searchSemantic(query, limit * 2);
      var keyword := searchKeyword(query, limit * 2);
      var m := Merge(Walk(semantic, keyword, w));
      && NonIncreasing(r)
      && DistinctKeys(r)
      && (forall i | 0 <= i < |r| :: r[i].hit in semantic || r[i].hit in keyword)
      && (forall i | 0 <= i < |r| :: Mentions(semantic, KeyOf(r[i].hit)) ==> r[i].hit in semantic)
      && (forall i | 0 <= i < |r| :: r[i].combined == ExpectedScore(semantic, keyword, w, KeyOf(r[i].hit)))
      && (limit >= 0 ==> |r| == Min(limit, |Keys(Walk(semantic, keyword, w))|))
      && (forall i | 0 <= i < |r| :: r[i] in m)
      && KeepsTop(m, r)
      && (forall c :: WithScore(r, c) <= WithScore(m, c))
  {
    var w := NormaliseWeights(semanticWeight, keywordWeight);
    var semantic := searchSemantic(query, limit * 2);
    var keyword := searchKeyword(query, limit * 2);
    var ws := Walk(semantic, keyword, w);
    var m := Merge(ws);
    var r := SliceTo(SortDesc(m), limit);
    RankingFacts(ws, limit);
    EntryHit(semantic, keyword, w);
    EntryScore(semantic, keyword, w);
    forall i | 0 <= i < |r|
      ensures r[i].hit in semantic || r[i].hit in keyword
      ensures Mentions(semantic, KeyOf(r[i].hit)) ==> r[i].hit in semantic
      ensures r[i].combined == ExpectedScore(semantic, keyword, w, KeyOf(r[i].hit))
    {
      assert r[i] in m;
    }
    r
  }
}
