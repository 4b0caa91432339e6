/** Keyword-overlap retrieval over the runbook library (internal/runbooks/runbooks.go). */
module Runbooks {
  import opened Sequences
  import opened Decimal
  import opened StableSort

  /** `lower` is the lower-cased content, `stem` the lower-cased file name without extension. */
  datatype Document = Document(title: string, source: string, content: string, lower: string, stem: string)

  datatype Scored = Scored(doc: Document, score: nat)

  function LowerCase(c: char): char {
    if 'A' <= c <= 'Z' then ((c as int) - ('A' as int) + ('a' as int)) as char else c
  }

  /** The characters with Unicode's White_Space property. */
  predicate IsSpace(c: char) {
    var u := c as int;
    0x09 <= u <= 0x0D || u == 0x20 || u == 0x85 || u == 0xA0 || u == 0x1680 || 0x2000 <= u <= 0x200A
    || u == 0x2028 || u == 0x2029 || u == 0x202F || u == 0x205F || u == 0x3000
  }

  lemma WhiteSpace(c: char)
    ensures IsSpace(c) <==> c as int in {9, 10, 11, 12, 13, 32, 133, 160, 5760, 8192, 8193, 8194, 8195, 8196, 8197, 8198,
                                         8199, 8200, 8201, 8202, 8232, 8233, 8239, 8287, 12288}
  {
  }

  /** The words of a text: the maximal runs of non-space characters. */
  function Words(s: string): seq<string> {
    if s == [] then []
    else
      var front, c := Words(s[..|s| - 1]), s[|s| - 1];
      if IsSpace(c) then front
      else if |s| >= 2 && !IsSpace(s[|s| - 2]) && front != [] then front[|front| - 1 := front[|front| - 1] + [c]]
      else front + [[c]]
  }

  /** Underscores separate words like spaces; case is dropped. */
  function Normalize(c: char): char {
    if c == '_' then ' ' else LowerCase(c)
  }

  function QueryTerms(query: string): seq<string> {
    Words(Map(Normalize, query))
  }

  ghost predicate ProperWord(w: string) {
    w != [] && forall c :: c in w ==> !IsSpace(c) && c != '_' && !('A' <= c <= 'Z')
  }

  /** Every query term is a non-empty word without spaces, underscores or capitals, so the
      retrieval's skip of empty terms never applies. */
  lemma {:induction false} TermsAreProper(query: string)
    ensures forall w :: w in QueryTerms(query) ==> ProperWord(w)
  {
    if query != [] {
      var front, c := query[..|query| - 1], query[|query| - 1];
      TermsAreProper(front);
      var s := Map(Normalize, query);
      assert s[..|s| - 1] == Map(Normalize, front);
      var w, words := Normalize(c), Words(Map(Normalize, front));
      if words != [] {
        assert words[|words| - 1] in words;
      }
    }
  }

  // ----- what the terms are -----

  /** Capitals become the small letters of the same place in the alphabet, and nothing else changes. */
  lemma LowerCasePairs(c: char)
    ensures var upper, lower := "ABCDEFGHIJKLMNOPQRSTUVWXYZ", "abcdefghijklmnopqrstuvwxyz";
            if 'A' <= c <= 'Z' then upper[c as int - 65] == c && LowerCase(c) == lower[c as int - 65] else LowerCase(c) == c
  {
  }

  function Lowered(s: string): string {
    Map(LowerCase, s)
  }

  /** Part of a word: neither white space nor an underscore. */
  predicate Inside(c: char) {
    !IsSpace(c) && c != '_'
  }

  datatype Place = Place(start: nat, end: nat)

  /** A word of the query: a maximal run of such characters. */
  ghost predicate WordAt(query: string, p: Place) {
    && p.start < p.end <= |query| && (forall k :: p.start <= k < p.end ==> Inside(query[k]))
    && (p.start == 0 || !Inside(query[p.start - 1])) && (p.end == |query| || !Inside(query[p.end]))
  }

  /** The term is the word at the place, lower-cased. */
  ghost predicate Spelled(query: string, p: Place, term: string) {
    WordAt(query, p) && term == Lowered(query[p.start..p.end])
  }

  /** The terms are the words at these places, lower-cased, in order, and there is no other word. */
  ghost predicate Spells(query: string, places: seq<Place>, terms: seq<string>) {
    && |terms| == |places|
    && (forall k :: 0 <= k < |places| ==> Spelled(query, places[k], terms[k]))
    && (forall k, l :: 0 <= k < l < |places| ==> places[k].end < places[l].start)
    && (forall p :: WordAt(query, p) ==> p in places)
  }

  /** The last word is still open. */
  ghost predicate EndsInside(query: string, places: seq<Place>) {
    query != [] && Inside(query[|query| - 1]) ==> places != [] && places[|places| - 1].end == |query|
  }

  lemma NormalizedChar(c: char)
    ensures IsSpace(Normalize(c)) <==> !Inside(c)
    ensures Inside(c) ==> Normalize(c) == LowerCase(c)
  {
  }

  /** A word that has ended stays one. */
  lemma WordBefore(query: string, c: char, p: Place)
    requires p.end <= |query| && (p.end < |query| || !Inside(c))
    ensures WordAt(query + [c], p) <==> WordAt(query, p)
  {
    var q := query + [c];
    assert q[|query|] == c && forall k :: 0 <= k < |query| ==> q[k] == query[k];
  }

  lemma SpelledBefore(query: string, c: char, p: Place, term: string)
    requires Spelled(query, p, term) && (p.end < |query| || !Inside(c))
    ensures Spelled(query + [c], p, term)
  {
    WordBefore(query, c, p);
    assert (query + [c])[p.start..p.end] == query[p.start..p.end];
  }

  lemma SpaceNext(query: string, c: char, places: seq<Place>, terms: seq<string>)
    requires Spells(query, places, terms) && !Inside(c)
    ensures Spells(query + [c], places, terms)
  {
    forall k | 0 <= k < |places| ensures Spelled(query + [c], places[k], terms[k]) {
      SpelledBefore(query, c, places[k], terms[k]);
    }
    forall p | WordAt(query + [c], p) ensures p in places {
      assert (query + [c])[|query|] == c;
      WordBefore(query, c, p);
    }
  }

  /** The place of the word that starts with the new character, or of the one that grows. */
  lemma NewWord(query: string, c: char, p: Place, term: string)
    requires Inside(c) && p.end == |query| + 1
    requires if p.start == |query| then (query == [] || !Inside(query[|query| - 1])) && term == []
             else Spelled(query, Place(p.start, |query|), term)
    ensures Spelled(query + [c], p, term + [LowerCase(c)])
  {
    var q := query + [c];
    assert q[|query|] == c && forall k :: 0 <= k < |query| ==> q[k] == query[k];
    assert q[p.start..p.end] == query[p.start..] + [c];
    assert query[p.start..] == query[p.start..|query|];
    MapAppend(LowerCase, query[p.start..], c);
  }

  /** Words of the longer query end before the new character, but for one. */
  lemma OtherWord(query: string, c: char, p: Place)
    requires Inside(c) && WordAt(query + [c], p)
    ensures p.end < |query| ==> WordAt(query, p)
    ensures p.end != |query|
    ensures p.end == |query| + 1 && p.start < |query| ==> WordAt(query, Place(p.start, |query|))
    ensures p.end == |query| + 1 && p.start == |query| ==> query == [] || !Inside(query[|query| - 1])
  {
    var q := query + [c];
    assert q[|query|] == c && forall k :: 0 <= k < |query| ==> q[k] == query[k];
  }

  lemma StartNext(query: string, c: char, places: seq<Place>, terms: seq<string>)
    requires Spells(query, places, terms) && Inside(c) && (query == [] || !Inside(query[|query| - 1]))
    ensures Spells(query + [c], places + [Place(|query|, |query| + 1)], terms + [[LowerCase(c)]])
  {
    var q, ps, ts := query + [c], places + [Place(|query|, |query| + 1)], terms + [[LowerCase(c)]];
    NewWord(query, c, Place(|query|, |query| + 1), []);
    forall k | 0 <= k < |ps| ensures Spelled(q, ps[k], ts[k]) {
      if k < |places| {
        assert Spelled(query, places[k], terms[k]) && Inside(query[places[k].end - 1]);
        SpelledBefore(query, c, places[k], terms[k]);
      }
    }
    forall p | WordAt(q, p) ensures p in ps {
      OtherWord(query, c, p);
      assert ps[|places|] == Place(|query|, |query| + 1);
    }
  }

  lemma GrowSpells(query: string, c: char, places: seq<Place>, terms: seq<string>, n: nat, ps: seq<Place>, ts: seq<string>)
    requires Spells(query, places, terms) && Inside(c) && |places| == n + 1 && places[n].end == |query|
    requires ps == places[..n] + [Place(places[n].start, |query| + 1)] && ts == terms[..n] + [terms[n] + [LowerCase(c)]]
    ensures forall k :: 0 <= k < |ps| ==> Spelled(query + [c], ps[k], ts[k])
  {
    assert Spelled(query, places[n], terms[n]);
    NewWord(query, c, ps[n], terms[n]);
    forall k | 0 <= k < n ensures Spelled(query + [c], ps[k], ts[k]) {
      assert Spelled(query, places[k], terms[k]) && places[k].end < places[n].start;
      SpelledBefore(query, c, places[k], terms[k]);
    }
  }

  lemma GrowCovers(query: string, c: char, places: seq<Place>, n: nat, ps: seq<Place>, p: Place)
    requires Inside(c) && query != [] && Inside(query[|query| - 1])
    requires |places| == n + 1 && places[n].end == |query| && (forall o :: WordAt(query, o) ==> o in places)
    requires forall k, l :: 0 <= k < l < |places| ==> places[k].end < places[l].start
    requires places[n].start < |query|
    requires ps == places[..n] + [Place(places[n].start, |query| + 1)] && WordAt(query + [c], p)
    ensures p in ps
  {
    OtherWord(query, c, p);
    var o := if p.end < |query| then p else Place(p.start, |query|);
    assert o in places;
    var k :| 0 <= k < |places| && places[k] == o;
    assert k < n ==> places[k].end < places[n].start;
    assert ps[k] == p;
  }

  lemma GrowNext(query: string, c: char, places: seq<Place>, terms: seq<string>, n: nat)
    requires Spells(query, places, terms) && Inside(c) && query != [] && Inside(query[|query| - 1])
    requires |places| == n + 1 && places[n].end == |query|
    ensures Spells(query + [c], places[..n] + [Place(places[n].start, |query| + 1)], terms[..n] + [terms[n] + [LowerCase(c)]])
  {
    var ps, ts := places[..n] + [Place(places[n].start, |query| + 1)], terms[..n] + [terms[n] + [LowerCase(c)]];
    GrowSpells(query, c, places, terms, n, ps, ts);
    assert Spelled(query, places[n], terms[n]);
    forall p | WordAt(query + [c], p) ensures p in ps {
      GrowCovers(query, c, places, n, ps, p);
    }
  }

  lemma TermsNext(query: string, c: char)
    ensures var terms := QueryTerms(query);
            QueryTerms(query + [c])
            == if !Inside(c) then terms
               else if query != [] && Inside(query[|query| - 1]) && terms != []
                 then terms[..|terms| - 1] + [terms[|terms| - 1] + [LowerCase(c)]]
               else terms + [[LowerCase(c)]]
  {
    var s := Map(Normalize, query + [c]);
    MapAppend(Normalize, query, c);
    assert s[..|s| - 1] == Map(Normalize, query) && s[|s| - 1] == Normalize(c);
    NormalizedChar(c);
    if query != [] {
      assert s[|s| - 2] == Normalize(query[|query| - 1]);
      NormalizedChar(query[|query| - 1]);
    }
  }

  lemma SpellsNext(query: string, c: char, places: seq<Place>, terms: seq<string>, next: seq<string>) returns (ps: seq<Place>)
    requires Spells(query, places, terms) && EndsInside(query, places)
    requires next == if !Inside(c) then terms
                     else if query != [] && Inside(query[|query| - 1]) && terms != []
                       then terms[..|terms| - 1] + [terms[|terms| - 1] + [LowerCase(c)]]
                     else terms + [[LowerCase(c)]]
    ensures Spells(query + [c], ps, next) && EndsInside(query + [c], ps)
  {
    if !Inside(c) {
      ps := places;
      SpaceNext(query, c, places, terms);
    } else if query != [] && Inside(query[|query| - 1]) {
      var n := |places| - 1;
      ps := places[..n] + [Place(places[n].start, |query| + 1)];
      GrowNext(query, c, places, terms, n);
    } else {
      ps := places + [Place(|query|, |query| + 1)];
      StartNext(query, c, places, terms);
    }
  }

  /** The terms of a query are its words, lower-cased, one for every place a word stands at, in order. */
  lemma {:induction false} TermsAreWords(query: string) returns (places: seq<Place>)
    ensures Spells(query, places, QueryTerms(query)) && EndsInside(query, places)
  {
    if query == [] {
      places := [];
    } else {
      var front, c := query[..|query| - 1], query[|query| - 1];
      FrontAndLast(query);
      places := TermsAreWords(front);
      TermsNext(front, c);
      places := SpellsNext(front, c, places, QueryTerms(front), QueryTerms(front + [c]));
    }
  }

  predicate OccursAt(text: string, term: string, i: nat) {
    i + |term| <= |text| && text[i..i + |term|] == term
  }

  predicate Contains(text: string, term: string) {
    exists i: nat :: i <= |text| && OccursAt(text, term, i)
  }

  predicate Hits(d: Document, term: string) {
    term != [] && (Contains(d.lower, term) || Contains(d.stem, term))
  }

  function ScoreOf(d: Document, terms: seq<string>): nat {
    if terms == [] then 0
    else ScoreOf(d, terms[..|terms| - 1]) + if Hits(d, terms[|terms| - 1]) then 1 else 0
  }

  function Scoring(terms: seq<string>): Document -> Scored {
    (d: Document) => Scored(d, ScoreOf(d, terms))
  }

  /** Higher score first; ties by source name. */
  predicate Ahead(a: Scored, b: Scored) {
    a.score > b.score || (a.score == b.score && TextLess(a.doc.source, b.doc.source))
  }

  function Ranked(docs: seq<Document>, terms: seq<string>): seq<Scored> {
    Sort(Ahead, Map(Scoring(terms), docs))
  }

  function Top(ranked: seq<Scored>, limit: int): seq<Scored> {
    if limit <= 0 || limit > |ranked| then ranked else ranked[..limit]
  }

  function HitBy(d: Document): string -> bool {
    (term: string) => Contains(d.lower, term) || Contains(d.stem, term)
  }

  /** The score of a document is the number of query terms found in its content or its name. */
  lemma {:induction false} ScoreCountsTerms(d: Document, terms: seq<string>)
    requires forall w :: w in terms ==> ProperWord(w)
    ensures ScoreOf(d, terms) == |Filter(HitBy(d), terms)|
  {
    if terms != [] {
      assert terms[|terms| - 1] in terms;
      ScoreCountsTerms(d, terms[..|terms| - 1]);
    }
  }

  method ScoreDocument(d: Document, terms: seq<string>) returns (score: nat)
    ensures score == ScoreOf(d, terms)
  {
    score := 0;
    for i := 0 to |terms|
      invariant score == ScoreOf(d, terms[..i])
    {
      assert terms[..i + 1][..i] == terms[..i];
      if terms[i] != [] && (Contains(d.lower, terms[i]) || Contains(d.stem, terms[i])) {
        score := score + 1;
      }
    }
    assert terms[..|terms|] == terms;
  }

  /** The document contains a word of the query, in its text or its name. */
  ghost predicate Mentions(d: Document, query: string) {
    exists p :: WordAt(query, p) && Contained(d, Lowered(query[p.start..p.end]))
  }

  ghost predicate Contained(d: Document, word: string) {
    (exists before, after :: d.lower == before + word + after) || (exists before, after :: d.stem == before + word + after)
  }

  lemma ContainsIff(text: string, word: string)
    ensures Contains(text, word) <==> exists before, after :: text == before + word + after
  {
    if Contains(text, word) {
      var i: nat :| i <= |text| && OccursAt(text, word, i);
      assert text == text[..i] + word + text[i + |word|..];
    }
    if before, after :| text == before + word + after {
      assert OccursAt(text, word, |before|);
    }
  }

  lemma {:induction false} PositiveScore(d: Document, terms: seq<string>)
    ensures ScoreOf(d, terms) > 0 <==> exists term :: term in terms && Hits(d, term)
  {
    if terms != [] {
      PositiveScore(d, terms[..|terms| - 1]);
      FrontAndLast(terms);
    }
  }

  lemma HitIsContained(d: Document, term: string)
    requires term != []
    ensures Hits(d, term) <==> Contained(d, term)
  {
    ContainsIff(d.lower, term);
    ContainsIff(d.stem, term);
  }

  /** A document scores exactly when it contains a word of the query. */
  lemma ScoresIff(d: Document, query: string)
    ensures ScoreOf(d, QueryTerms(query)) > 0 <==> Mentions(d, query)
  {
    var terms := QueryTerms(query);
    var places := TermsAreWords(query);
    PositiveScore(d, terms);
    if term :| term in terms && Hits(d, term) {
      var k :| 0 <= k < |terms| && terms[k] == term;
      assert Spelled(query, places[k], terms[k]);
      HitIsContained(d, term);
    }
    if p :| WordAt(query, p) && Contained(d, Lowered(query[p.start..p.end])) {
      var k :| 0 <= k < |places| && places[k] == p;
      assert Spelled(query, places[k], terms[k]);
      HitIsContained(d, terms[k]);
    }
  }

  lemma RankedScores(docs: seq<Document>, terms: seq<string>, i: nat, j: nat)
    requires i < j < |Ranked(docs, terms)|
    ensures Ranked(docs, terms)[i].score >= Ranked(docs, terms)[j].score
  {
    AheadIsWeakOrder();
    SortSorted(Ahead, Map(Scoring(terms), docs));
    assert !Ahead(Ranked(docs, terms)[j], Ranked(docs, terms)[i]);
  }

  lemma RankedOf(docs: seq<Document>, terms: seq<string>, s: Scored)
    ensures s in Ranked(docs, terms) <==> s.doc in docs && s.score == ScoreOf(s.doc, terms)
  {
    SortMembers(Ahead, Map(Scoring(terms), docs));
    MapMembers(Scoring(terms), docs);
    if s in Ranked(docs, terms) {
      var d :| d in docs && Scoring(terms)(d) == s;
    }
    if s.doc in docs && s.score == ScoreOf(s.doc, terms) {
      assert Scoring(terms)(s.doc) == s;
    }
  }

  /** No document that contains a word of the query stands behind one that contains none, and none is
      cut off while one that contains none is returned. */
  ghost predicate WordsFirst(docs: seq<Document>, query: string, out: seq<Scored>) {
    && (forall i, j :: 0 <= i < j < |out| && Mentions(out[j].doc, query) ==> Mentions(out[i].doc, query))
    && (forall d, i :: d in docs && Mentions(d, query) && 0 <= i < |out| && !Mentions(out[i].doc, query) ==>
          exists j :: 0 <= j < |out| && out[j].doc == d)
  }

  lemma RankedMention(docs: seq<Document>, query: string, i: nat, j: nat)
    requires i <= j < |Ranked(docs, QueryTerms(query))| && Mentions(Ranked(docs, QueryTerms(query))[j].doc, query)
    ensures Mentions(Ranked(docs, QueryTerms(query))[i].doc, query)
  {
    var ranked, terms := Ranked(docs, QueryTerms(query)), QueryTerms(query);
    RankedOf(docs, terms, ranked[i]);
    RankedOf(docs, terms, ranked[j]);
    assert ranked[i] in ranked && ranked[j] in ranked;
    ScoresIff(ranked[i].doc, query);
    ScoresIff(ranked[j].doc, query);
    if i < j {
      RankedScores(docs, terms, i, j);
    }
  }

  lemma RetrievalPutsWordsFirst(docs: seq<Document>, query: string, limit: int)
    ensures WordsFirst(docs, query, Top(Ranked(docs, QueryTerms(query)), limit))
  {
    var ranked, terms := Ranked(docs, QueryTerms(query)), QueryTerms(query);
    var out := Top(ranked, limit);
    forall i, j | 0 <= i < j < |out| && Mentions(out[j].doc, query) ensures Mentions(out[i].doc, query) {
      RankedMention(docs, query, i, j);
    }
    forall d, i | d in docs && Mentions(d, query) && 0 <= i < |out| && !Mentions(out[i].doc, query)
      ensures exists j :: 0 <= j < |out| && out[j].doc == d
    {
      RankedOf(docs, terms, Scored(d, ScoreOf(d, terms)));
      var j :| 0 <= j < |ranked| && ranked[j] == Scored(d, ScoreOf(d, terms));
      if j >= i {
        RankedMention(docs, query, i, j);
      }
      assert out[j].doc == d;
    }
  }

  method Retrieve(docs: seq<Document>, query: string, limit: int) returns (out: seq<Scored>)
    ensures out == Top(Ranked(docs, QueryTerms(query)), limit)
    ensures |out| == if limit <= 0 || limit > |docs| then |docs| else limit
    ensures WordsFirst(docs, query, out)
  {
    var terms := QueryTerms(query);
    var candidates := [];
    for i := 0 to |docs|
      invariant candidates == Map(Scoring(terms), docs[..i])
    {
      assert docs[..i + 1] == docs[..i] + [docs[i]];
      MapAppend(Scoring(terms), docs[..i], docs[i]);
      var score := ScoreDocument(docs[i], terms);
      candidates := candidates + [Scored(docs[i], score)];
    }
    assert docs[..|docs|] == docs;
    RetrievalPutsWordsFirst(docs, query, limit);
    candidates := Sort(Ahead, candidates);
    var n := if limit <= 0 || limit > |candidates| then |candidates| else limit;
    out := candidates[..n];
  }

  lemma AheadIsWeakOrder()
    ensures WeakOrder(Ahead)
  {
    forall a: Scored, b: Scored | Ahead(a, b) ensures !Ahead(b, a) {
      TextLessTrichotomy(a.doc.source, b.doc.source);
    }
    forall a: Scored, b: Scored, c: Scored | !Ahead(a, b) && !Ahead(b, c) ensures !Ahead(a, c) {
      if a.score == b.score == c.score {
        TextLessWeakOrder(a.doc.source, b.doc.source, c.doc.source);
      }
    }
  }

  /** The ranking is a permutation of the scored library, best first, and a smaller positive
      limit returns a prefix of what a larger one returns. */
  lemma RankingIsOrdered(docs: seq<Document>, terms: seq<string>, m: int, n: int)
    requires 0 < m <= n
    ensures multiset(Ranked(docs, terms)) == multiset(Map(Scoring(terms), docs))
    ensures Sorted(Ahead, Ranked(docs, terms))
    ensures Top(Ranked(docs, terms), m) <= Top(Ranked(docs, terms), n) <= Ranked(docs, terms)
  {
    AheadIsWeakOrder();
    SortSorted(Ahead, Map(Scoring(terms), docs));
  }

  /** Documents are identified by their source. */
  ghost predicate DistinctSources(docs: seq<Document>) {
    forall d, e :: d in docs && e in docs && d.source == e.source ==> d == e
  }

  lemma RemoveOne<T>(s: seq<T>, k: nat)
    requires k < |s|
    ensures multiset(s) == multiset(s[..k] + s[k + 1..]) + multiset{s[k]}
    ensures multiset(s[..k] + s[k + 1..]) == multiset(s) - multiset{s[k]}
  {
    assert s == s[..k] + [s[k]] + s[k + 1..];
  }

  lemma RemoveMapped(f: Document -> Scored, s: seq<Document>, k: nat)
    requires k < |s|
    ensures multiset(Map(f, s)) == multiset(Map(f, s[..k] + s[k + 1..])) + multiset{f(s[k])}
  {
    RemoveOne(Map(f, s), k);
    assert Map(f, s[..k] + s[k + 1..]) == Map(f, s)[..k] + Map(f, s)[k + 1..];
  }

  lemma {:induction false} MapPermutation(f: Document -> Scored, s: seq<Document>, t: seq<Document>)
    requires multiset(s) == multiset(t)
    ensures multiset(Map(f, s)) == multiset(Map(f, t))
    decreases |s|
  {
    assert |s| == |multiset(s)| == |multiset(t)| == |t|;
    if s != [] {
      assert s[0] in multiset(t);
      var k :| 0 <= k < |t| && t[k] == s[0];
      SamePermutationTail(s, t, k);
      MapPermutation(f, s[..0] + s[1..], t[..k] + t[k + 1..]);
      RemoveMapped(f, s, 0);
      RemoveMapped(f, t, k);
    }
  }

  lemma SamePermutationTail<T>(s: seq<T>, t: seq<T>, k: nat)
    requires multiset(s) == multiset(t) && s != [] && k < |t| && t[k] == s[0]
    ensures multiset(s[..0] + s[1..]) == multiset(t[..k] + t[k + 1..])
  {
    RemoveOne(s, 0);
    RemoveOne(t, k);
  }

  /** What is retrieved does not depend on the order the library is stored in. */
  lemma RetrievalIgnoresStoredOrder(docs: seq<Document>, others: seq<Document>, terms: seq<string>)
    requires multiset(docs) == multiset(others) && DistinctSources(docs)
    ensures Ranked(docs, terms) == Ranked(others, terms)
  {
    MapPermutation(Scoring(terms), docs, others);
    var s, t := Ranked(docs, terms), Ranked(others, terms);
    RankingIsOrdered(docs, terms, 1, 1);
    RankingIsOrdered(others, terms, 1, 1);
    SortMembers(Ahead, Map(Scoring(terms), docs));
    forall a, b | a in s && b in s && a != b ensures Ahead(a, b) || Ahead(b, a) {
      assert a == Scoring(terms)(a.doc) && a.doc in docs && b == Scoring(terms)(b.doc) && b.doc in docs;
      TextLessTrichotomy(a.doc.source, b.doc.source);
    }
    SortedUnique(Ahead, s, t);
  }
}
