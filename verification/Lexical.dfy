/** The BM25-lite scorer of `lexical.py`, over exact reals. Texts arrive as token lists. */
module Lexical {
  import opened Wrappers

  type Tokens = seq<string>

  /** What the proofs assume of `math.log`. */
  ghost predicate IsLog(log: real -> real) {
    forall x :: x > 1.0 ==> log(x) > 0.0
  }

  function Occurrences(tokens: Tokens, term: string): nat {
    multiset(tokens)[term]
  }

  function Relative(count: nat, total: nat): real
    requires total > 0
  {
    count as real / total as real
  }

  /** Relative term frequency, 0 for a term that does not occur. */
  function Frequency(tokens: Tokens, term: string): real {
    if tokens == [] then 0.0 else Relative(Occurrences(tokens, term), |tokens|)
  }

  function SumDocs(corpus: seq<Tokens>, g: Tokens -> nat): nat {
    if corpus == [] then 0 else SumDocs(corpus[..|corpus| - 1], g) + g(corpus[|corpus| - 1])
  }

  function Contains(term: string): Tokens -> nat {
    tokens => if term in tokens then 1 else 0
  }

  function Length(): Tokens -> nat {
    tokens => |tokens|
  }

  function DocumentFrequency(corpus: seq<Tokens>, term: string): nat {
    SumDocs(corpus, Contains(term))
  }

  function Idf(log: real -> real, corpus: seq<Tokens>, term: string): real {
    if corpus == [] then 0.0 else
      var df := DocumentFrequency(corpus, term) as real;
      log((|corpus| as real - df + 0.5) / (df + 0.5) + 1.0)
  }

  function AverageLength(corpus: seq<Tokens>): real {
    SumDocs(corpus, Length()) as real / if |corpus| == 0 then 1.0 else |corpus| as real
  }

  function NormOver(k1: real, b: real, length: nat, m: real): real
    requires m > 0.0
  {
    k1 * (1.0 - b + b * length as real / m)
  }

  function NormFactor(k1: real, b: real, length: nat, average: real): real {
    NormOver(k1, b, length, if average > 1.0 then average else 1.0)
  }

  function Saturated(tf: real, idf: real, k1: real, norm: real): real
    requires tf + norm != 0.0
  {
    idf * (tf * (k1 + 1.0)) / (tf + norm)
  }

  function TermScore(tf: real, idf: real, k1: real, norm: real): real {
    if tf > 0.0 && idf > 0.0 && tf + norm != 0.0 then Saturated(tf, idf, k1, norm) else 0.0
  }

  function TermScoreOf(log: real -> real, chunk: Tokens, corpus: seq<Tokens>, k1: real, b: real): string -> real {
    term => TermScore(Frequency(chunk, term), Idf(log, corpus, term), k1,
                      NormFactor(k1, b, |chunk|, AverageLength(corpus)))
  }

  function IdfOf(log: real -> real, corpus: seq<Tokens>): string -> real {
    term => Idf(log, corpus, term)
  }

  /** A sum over a finite set, in any order. */
  ghost function SumOver(terms: set<string>, f: string -> real): real {
    if terms == {} then 0.0 else
      var t :| t in terms;
      f(t) + SumOver(terms - {t}, f)
  }

  function TermsOf(tokens: Tokens): set<string> {
    set t | t in tokens
  }

  ghost function Score(log: real -> real, chunk: Tokens, query: Tokens, corpus: seq<Tokens>, k1: real, b: real): real {
    if query == [] || chunk == [] then 0.0
    else SumOver(TermsOf(query), TermScoreOf(log, chunk, corpus, k1, b))
  }

  datatype Error = ZeroDivision

  /** The score of a term divides by a number other than 0, or does not divide. */
  predicate DividesAt(log: real -> real, chunk: Tokens, corpus: seq<Tokens>, k1: real, b: real, term: string) {
    Frequency(chunk, term) > 0.0 && Idf(log, corpus, term) > 0.0 ==>
      Frequency(chunk, term) + NormFactor(k1, b, |chunk|, AverageLength(corpus)) != 0.0
  }

  ghost predicate Divides(log: real -> real, chunk: Tokens, query: Tokens, corpus: seq<Tokens>, k1: real, b: real) {
    forall t :: t in TermsOf(query) ==> DividesAt(log, chunk, corpus, k1, b, t)
  }

  /** The parameters every caller uses are k1 = 1.2 and b = 0.75. */
  predicate Standard(k1: real, b: real) {
    k1 >= 0.0 && 0.0 <= b <= 1.0
  }

  // ---------------------------------------------------------------- the loops

  lemma {:induction false} SumTakesAny(terms: set<string>, f: string -> real, t: string)
    requires t in terms
    ensures SumOver(terms, f) == f(t) + SumOver(terms - {t}, f)
    decreases |terms|
  {
    var u :| u in terms && SumOver(terms, f) == f(u) + SumOver(terms - {u}, f);
    if u != t {
      SumTakesAny(terms - {u}, f, t);
      SumTakesAny(terms - {t}, f, u);
      assert terms - {u} - {t} == terms - {t} - {u};
    }
  }

  /** Python's `Counter(chunk)`. */
  method Counter(chunk: Tokens) returns (counts: map<string, nat>)
    ensures counts.Keys == TermsOf(chunk)
    ensures forall t :: t in counts ==> counts[t] == Occurrences(chunk, t)
  {
    counts := map[];
    for i := 0 to |chunk|
      invariant counts.Keys == TermsOf(chunk[..i])
      invariant forall t :: t in counts ==> counts[t] == Occurrences(chunk[..i], t)
    {
      var term := chunk[i];
      assert chunk[..i + 1] == chunk[..i] + [term];
      assert term in chunk[..i] <==> Occurrences(chunk[..i], term) > 0;
      counts := counts[term := (if term in counts then counts[term] else 0) + 1];
    }
    assert chunk[..|chunk|] == chunk;
  }

  method ComputeTf(chunk: Tokens) returns (tf: map<string, real>)
    ensures tf.Keys == TermsOf(chunk)
    ensures forall t :: t in tf ==> IsShare(tf[t], Occurrences(chunk, t), |chunk|)
  {
    hide Occurrences, Relative, IsShare;
    if chunk == [] {
      return map[];
    }
    var counts := Counter(chunk);
    tf := map t | t in counts :: Relative(counts[t], |chunk|);
    forall t | t in tf ensures IsShare(tf[t], Occurrences(chunk, t), |chunk|) {
      RelativeIsShare(Occurrences(chunk, t), |chunk|);
    }
  }

  /** x is the share that `count` is of `total`. */
  predicate IsShare(x: real, count: nat, total: nat) {
    x * total as real == count as real
  }

  lemma RelativeIsShare(count: nat, total: nat)
    requires total > 0
    ensures IsShare(Relative(count, total), count, total)
  {
  }

  method ComputeIdf(log: real -> real, corpus: seq<Tokens>, terms: set<string>) returns (idf: map<string, real>)
    ensures idf.Keys == terms
    ensures forall t :: t in idf ==> idf[t] == Idf(log, corpus, t)
  {
    idf := map[];
    var rest := terms;
    while rest != {}
      invariant rest <= terms && idf.Keys == terms - rest
      invariant forall t :: t in idf ==> idf[t] == Idf(log, corpus, t)
      decreases rest
    {
      var term :| term in rest;
      if corpus == [] {
        idf := idf[term := 0.0];
      } else {
        var df := 0;
        for i := 0 to |corpus|
          invariant df == DocumentFrequency(corpus[..i], term)
        {
          assert corpus[..i + 1][..i] == corpus[..i];
          df := df + if term in corpus[i] then 1 else 0;
        }
        assert corpus[..|corpus|] == corpus;
        idf := idf[term := log((|corpus| as real - df as real + 0.5) / (df as real + 0.5) + 1.0)];
      }
      rest := rest - {term};
    }
  }

  /** The set of query terms is walked in no particular order. */
  method Bm25ScoreTokens(log: real -> real, chunk: Tokens, query: Tokens, corpus: seq<Tokens>, k1: real, b: real)
    returns (r: Result<real, Error>)
    ensures r == if Divides(log, chunk, query, corpus, k1, b) then Ok(Score(log, chunk, query, corpus, k1, b))
                 else Err(ZeroDivision)
  {
    hide Frequency, Idf, NormFactor, AverageLength, SumOver, DividesAt, Occurrences, TermScore, Divides, Saturated;
    if query == [] || chunk == [] {
      NothingToDivide(log, chunk, query, corpus, k1, b);
      return Ok(0.0);
    }
    var tf := ComputeTf(chunk);
    FrequenciesOf(chunk, tf);
    var terms := TermsOf(query);
    var idf := ComputeIdf(log, corpus, terms);
    var norm := NormFactor(k1, b, |chunk|, AverageLength(corpus));
    ghost var f := TermScoreOf(log, chunk, corpus, k1, b);
    var rest := terms;
    var score := 0.0;
    while rest != {}
      invariant rest <= terms && score + SumOver(rest, f) == SumOver(terms, f)
      invariant forall t :: t in terms - rest ==> DividesAt(log, chunk, corpus, k1, b, t)
      decreases rest
    {
      var term :| term in rest;
      SumTakesAny(rest, f, term);
      var frequency := if term in tf then tf[term] else 0.0;
      DividesUnlessZero(log, chunk, corpus, k1, b, term);
      assert f(term) == TermScore(frequency, idf[term], k1, norm);
      if frequency > 0.0 && idf[term] > 0.0 {
        if frequency + norm == 0.0 {
          FailsAt(log, chunk, query, corpus, k1, b, term);
          return Err(ZeroDivision);
        }
        score := score + Saturated(frequency, idf[term], k1, norm);
      }
      rest := rest - {term};
    }
    AllDivide(log, chunk, query, corpus, k1, b);
    SumOfNothing(f);
    return Ok(score);
  }

  lemma FrequenciesOf(chunk: Tokens, tf: map<string, real>)
    requires chunk != [] && tf.Keys == TermsOf(chunk)
    requires forall t :: t in tf ==> IsShare(tf[t], Occurrences(chunk, t), |chunk|)
    ensures forall t :: (if t in tf then tf[t] else 0.0) == Frequency(chunk, t)
  {
    hide Frequency, Occurrences, IsShare;
    forall t ensures (if t in tf then tf[t] else 0.0) == Frequency(chunk, t) {
      FrequencyFacts(chunk, t);
      FrequencyIsShare(chunk, t);
      if t in tf {
        SameShare(tf[t], Frequency(chunk, t), Occurrences(chunk, t), |chunk|);
      }
    }
  }

  lemma FrequencyIsShare(chunk: Tokens, term: string)
    requires chunk != []
    ensures IsShare(Frequency(chunk, term), Occurrences(chunk, term), |chunk|)
  {
    hide Relative, Occurrences;
    RelativeIsShare(Occurrences(chunk, term), |chunk|);
  }

  lemma SameShare(x: real, y: real, count: nat, total: nat)
    requires total > 0 && IsShare(x, count, total) && IsShare(y, count, total)
    ensures x == y
  {
    ScaledOrder(x, y, total as real);
    ScaledOrder(y, x, total as real);
  }

  /** What the scoring loop does at a term. */
  lemma DividesUnlessZero(log: real -> real, chunk: Tokens, corpus: seq<Tokens>, k1: real, b: real, term: string)
    ensures var tf, idf := Frequency(chunk, term), Idf(log, corpus, term);
            var norm := NormFactor(k1, b, |chunk|, AverageLength(corpus));
            && (DividesAt(log, chunk, corpus, k1, b, term) <==> !(tf > 0.0 && idf > 0.0 && tf + norm == 0.0))
            && (DividesAt(log, chunk, corpus, k1, b, term) ==>
                 TermScore(tf, idf, k1, norm)
                 == if tf > 0.0 && idf > 0.0 then Saturated(tf, idf, k1, norm) else 0.0)
  {
    hide Frequency, Idf, NormFactor, AverageLength, Saturated;
  }

  lemma FailsAt(log: real -> real, chunk: Tokens, query: Tokens, corpus: seq<Tokens>, k1: real, b: real, term: string)
    requires term in TermsOf(query) && !DividesAt(log, chunk, corpus, k1, b, term)
    ensures !Divides(log, chunk, query, corpus, k1, b)
  {
  }

  lemma AllDivide(log: real -> real, chunk: Tokens, query: Tokens, corpus: seq<Tokens>, k1: real, b: real)
    requires forall t :: t in TermsOf(query) ==> DividesAt(log, chunk, corpus, k1, b, t)
    ensures Divides(log, chunk, query, corpus, k1, b)
  {
  }

  lemma NothingToDivide(log: real -> real, chunk: Tokens, query: Tokens, corpus: seq<Tokens>, k1: real, b: real)
    requires query == [] || chunk == []
    ensures Divides(log, chunk, query, corpus, k1, b)
  {
  }

  lemma SumOfNothing(f: string -> real)
    ensures SumOver({}, f) == 0.0
  {
  }

  // ---------------------------------------------------------------- bounds

  lemma FrequencyFacts(chunk: Tokens, term: string)
    ensures Frequency(chunk, term) >= 0.0
    ensures Frequency(chunk, term) > 0.0 <==> term in chunk
    ensures term !in chunk ==> Frequency(chunk, term) == 0.0
  {
    if chunk != [] {
      assert term in chunk <==> multiset(chunk)[term] > 0;
      QuotientSign(Occurrences(chunk, term) as real, |chunk| as real);
    }
  }

  lemma QuotientSign(x: real, y: real)
    requires x >= 0.0 && y > 0.0
    ensures x / y >= 0.0 && (x > 0.0 <==> x / y > 0.0)
  {
  }

  lemma ProductSign(x: real, y: real)
    requires x >= 0.0 && y >= 0.0
    ensures x * y >= 0.0 && (x > 0.0 && y > 0.0 ==> x * y > 0.0)
  {
  }

  lemma NormNonNegative(k1: real, b: real, length: nat, average: real)
    requires Standard(k1, b)
    ensures NormFactor(k1, b, length, average) >= 0.0
  {
    var longest := if average > 1.0 then average else 1.0;
    ProductSign(b, length as real);
    QuotientSign(b * length as real, longest);
    ProductSign(k1, 1.0 - b + b * length as real / longest);
  }

  /** Within the standard range of the parameters no division fails. */
  lemma StandardDivides(log: real -> real, chunk: Tokens, query: Tokens, corpus: seq<Tokens>, k1: real, b: real)
    requires Standard(k1, b)
    ensures Divides(log, chunk, query, corpus, k1, b)
  {
    hide NormFactor;
    NormNonNegative(k1, b, |chunk|, AverageLength(corpus));
  }

  /** The term frequencies of a chunk are its shares: they add up to 1. */
  lemma FrequenciesSumToOne(chunk: Tokens)
    requires chunk != []
    ensures SumOver(TermsOf(chunk), FrequencyOf(chunk)) == 1.0
  {
    hide SumOver, Occurrences;
    var n, terms, f, g := |chunk| as real, TermsOf(chunk), FrequencyOf(chunk), OccurrencesOf(chunk);
    SumOccurrences(chunk, terms);
    forall t | t in terms ensures g(t) <= n * f(t) && f(t) <= 1.0 / n * g(t) {
      assert f(t) == g(t) / n;
      ShareOfWhole(g(t), n);
    }
    SumBound(terms, g, f, n);
    SumBound(terms, f, g, 1.0 / n);
    ShareOfWhole(n, n);
    AtLeastOne(SumOver(terms, f), n);
  }

  function FrequencyOf(chunk: Tokens): string -> real {
    term => Frequency(chunk, term)
  }

  function OccurrencesOf(chunk: Tokens): string -> real {
    term => Occurrences(chunk, term) as real
  }

  lemma ShareOfWhole(x: real, n: real)
    requires n > 0.0
    ensures x / n * n == x && n * (x / n) == x && 1.0 / n * x == x / n && n / n == 1.0
  {
  }

  lemma AtLeastOne(x: real, n: real)
    requires n > 0.0 && n <= n * x
    ensures x >= 1.0
  {
  }

  lemma {:induction false} SumOccurrences(chunk: Tokens, terms: set<string>)
    requires TermsOf(chunk) <= terms
    ensures SumOver(terms, OccurrencesOf(chunk)) == |chunk| as real
  {
    hide SumOver;
    var g := OccurrencesOf(chunk);
    if chunk == [] {
      SumOfZeros(terms, g);
    } else {
      var n := |chunk| - 1;
      var last, before := chunk[n], chunk[..n];
      assert chunk == before + [last];
      SumOccurrences(before, terms);
      SumTakesAny(terms, g, last);
      SumTakesAny(terms, OccurrencesOf(before), last);
      SumPointwise(terms - {last}, g, OccurrencesOf(before));
    }
  }

  lemma {:induction false} SumOfZeros(terms: set<string>, f: string -> real)
    requires forall t :: t in terms ==> f(t) == 0.0
    ensures SumOver(terms, f) == 0.0
  {
    if terms != {} {
      var t :| t in terms;
      SumTakesAny(terms, f, t);
      SumOfZeros(terms - {t}, f);
    }
  }

  lemma {:induction false} DocumentFrequencyBound(corpus: seq<Tokens>, term: string)
    ensures DocumentFrequency(corpus, term) <= |corpus|
  {
    if corpus != [] {
      DocumentFrequencyBound(corpus[..|corpus| - 1], term);
    }
  }

  lemma IdfPositive(log: real -> real, corpus: seq<Tokens>, term: string)
    requires IsLog(log) && corpus != []
    ensures Idf(log, corpus, term) > 0.0
  {
    DocumentFrequencyBound(corpus, term);
    var df := DocumentFrequency(corpus, term) as real;
    QuotientSign(|corpus| as real - df + 0.5, df + 0.5);
  }

  lemma TermScoreBounds(tf: real, idf: real, k1: real, norm: real)
    requires tf >= 0.0 && idf >= 0.0 && k1 >= 0.0 && norm >= 0.0
    ensures 0.0 <= TermScore(tf, idf, k1, norm) <= (k1 + 1.0) * idf
    ensures TermScore(tf, idf, k1, norm) > 0.0 <==> tf > 0.0 && idf > 0.0
  {
    ProductSign(k1 + 1.0, idf);
    if tf > 0.0 && idf > 0.0 {
      var most, whole := (k1 + 1.0) * idf, tf + norm;
      ProductSign(most, tf);
      ProductSign(most, norm);
      assert idf * (tf * (k1 + 1.0)) == most * tf;
      QuotientSign(most * tf, whole);
      assert most * whole == most * tf + most * norm;
      QuotientBound(most * tf, most, whole);
    }
  }

  lemma QuotientBound(x: real, most: real, y: real)
    requires y > 0.0 && x <= most * y
    ensures x / y <= most
  {
  }

  /** Non-negative terms sum to a positive number exactly when one of them is positive. */
  lemma {:induction false} SumSign(terms: set<string>, f: string -> real)
    requires forall t :: t in terms ==> f(t) >= 0.0
    ensures SumOver(terms, f) >= 0.0
    ensures SumOver(terms, f) > 0.0 <==> exists t :: t in terms && f(t) > 0.0
  {
    if terms != {} {
      var t :| t in terms;
      SumTakesAny(terms, f, t);
      SumSign(terms - {t}, f);
    }
  }

  lemma Distribute(k: real, x: real, y: real)
    ensures k * (x + y) == k * x + k * y
  {
  }

  lemma {:induction false} SumBound(terms: set<string>, f: string -> real, g: string -> real, k: real)
    requires forall t :: t in terms ==> f(t) <= k * g(t)
    ensures SumOver(terms, f) <= k * SumOver(terms, g)
  {
    hide SumOver;
    if terms == {} {
      SumOfNothing(f);
      SumOfNothing(g);
    } else {
      var t :| t in terms;
      SumTakesAny(terms, f, t);
      SumTakesAny(terms, g, t);
      SumBound(terms - {t}, f, g, k);
      Distribute(k, g(t), SumOver(terms - {t}, g));
    }
  }

  /** Main result: BM25-lite bounds. Against a non-empty corpus the score is never negative, is
      positive exactly when the chunk contains a query term, and is at most k1 + 1 times the
      summed IDF of the query terms. */
  lemma ScoreBounds(log: real -> real, chunk: Tokens, query: Tokens, corpus: seq<Tokens>, k1: real, b: real)
    requires IsLog(log) && Standard(k1, b) && corpus != []
    ensures Score(log, chunk, query, corpus, k1, b) >= 0.0
    ensures Score(log, chunk, query, corpus, k1, b) > 0.0 <==> exists t :: t in chunk && t in query
    ensures Score(log, chunk, query, corpus, k1, b) <= (k1 + 1.0) * SumOver(TermsOf(query), IdfOf(log, corpus))
  {
    hide Frequency, Idf, NormFactor, AverageLength, SumOver, TermScore;
    var f, g := TermScoreOf(log, chunk, corpus, k1, b), IdfOf(log, corpus);
    var norm := NormFactor(k1, b, |chunk|, AverageLength(corpus));
    NormNonNegative(k1, b, |chunk|, AverageLength(corpus));
    forall t ensures f(t) >= 0.0 && (f(t) > 0.0 <==> t in chunk) && f(t) <= (k1 + 1.0) * g(t) && g(t) > 0.0 {
      IdfPositive(log, corpus, t);
      FrequencyFacts(chunk, t);
      TermScoreBounds(Frequency(chunk, t), Idf(log, corpus, t), k1, norm);
    }
    SumSign(TermsOf(query), f);
    SumSign(TermsOf(query), g);
    SumBound(TermsOf(query), f, g, k1 + 1.0);
    ProductSign(k1 + 1.0, SumOver(TermsOf(query), g));
  }

  // ---------------------------------------------------------------- what scores higher

  lemma QuotientOrder(x: real, y: real, z: real, w: real)
    requires y > 0.0 && w > 0.0
    ensures x * w <= z * y ==> x / y <= z / w
    ensures x * w < z * y ==> x / y < z / w
  {
    var q, r := x / y, z / w;
    assert x == q * y && z == r * w;
    assert x * w == q * (y * w) && z * y == r * (y * w);
    ProductSign(y, w);
    ScaledOrder(q, r, y * w);
  }

  lemma ScaledOrder(q: real, r: real, k: real)
    requires k > 0.0
    ensures q <= r <==> q * k <= r * k
    ensures q < r <==> q * k < r * k
  {
    if q < r {
      ProductSign(r - q, k);
      assert (r - q) * k == r * k - q * k;
    } else if r < q {
      ProductSign(q - r, k);
      assert (q - r) * k == q * k - r * k;
    }
  }

  /** The saturating share of a term: it grows with its frequency, towards c. */
  function Share(c: real, norm: real, tf: real): real
    requires tf + norm != 0.0
  {
    c * tf / (tf + norm)
  }

  lemma TermScoreShape(idf: real, k1: real, norm: real) returns (c: real)
    requires idf > 0.0 && k1 >= 0.0 && norm >= 0.0
    ensures c > 0.0 && forall tf :: tf > 0.0 ==> TermScore(tf, idf, k1, norm) == Share(c, norm, tf)
  {
    c := idf * (k1 + 1.0);
    ProductSign(idf, k1 + 1.0);
    forall tf | tf > 0.0 ensures TermScore(tf, idf, k1, norm) == Share(c, norm, tf) {
      assert idf * (tf * (k1 + 1.0)) == c * tf;
    }
  }

  lemma TermScoreGrows(tf: real, tf': real, idf: real, k1: real, norm: real)
    requires 0.0 <= tf <= tf' && idf > 0.0 && k1 >= 0.0 && norm >= 0.0
    ensures TermScore(tf, idf, k1, norm) <= TermScore(tf', idf, k1, norm)
    ensures tf < tf' && norm > 0.0 ==> TermScore(tf, idf, k1, norm) < TermScore(tf', idf, k1, norm)
  {
    hide TermScore, Share;
    if tf > 0.0 {
      var c := TermScoreShape(idf, k1, norm);
      ShareGrows(c, norm, tf, tf');
    } else {
      TermScoreBounds(tf', idf, k1, norm);
      ZeroFrequency(tf, idf, k1, norm);
    }
  }

  lemma ZeroFrequency(tf: real, idf: real, k1: real, norm: real)
    requires tf <= 0.0
    ensures TermScore(tf, idf, k1, norm) == 0.0
  {
  }

  lemma ShareGrows(c: real, norm: real, tf: real, tf': real)
    requires c > 0.0 && norm >= 0.0 && 0.0 < tf <= tf'
    ensures Share(c, norm, tf) <= Share(c, norm, tf')
    ensures tf < tf' && norm > 0.0 ==> Share(c, norm, tf) < Share(c, norm, tf')
  {
    hide Share, Crossed;
    ShareOrder(c, norm, tf, tf');
    CrossedOrder(c, norm, tf, tf');
  }

  /** One side of two shares compared by cross multiplication. */
  function Crossed(c: real, norm: real, tf: real, other: real): real {
    c * tf * (other + norm)
  }

  lemma ShareOrder(c: real, norm: real, tf: real, tf': real)
    requires norm >= 0.0 && 0.0 < tf <= tf'
    ensures Crossed(c, norm, tf, tf') <= Crossed(c, norm, tf', tf) ==> Share(c, norm, tf) <= Share(c, norm, tf')
    ensures Crossed(c, norm, tf, tf') < Crossed(c, norm, tf', tf) ==> Share(c, norm, tf) < Share(c, norm, tf')
  {
    QuotientOrder(c * tf, tf + norm, c * tf', tf' + norm);
  }

  lemma CrossedOrder(c: real, norm: real, tf: real, tf': real)
    requires c > 0.0 && norm >= 0.0 && tf <= tf'
    ensures Crossed(c, norm, tf, tf') <= Crossed(c, norm, tf', tf)
    ensures tf < tf' && norm > 0.0 ==> Crossed(c, norm, tf, tf') < Crossed(c, norm, tf', tf)
  {
    hide Crossed, Gap;
    CrossedGap(c, norm, tf, tf');
    GapSign(c, norm, tf' - tf);
  }

  function Gap(c: real, norm: real, more: real): real {
    c * norm * more
  }

  lemma GapSign(c: real, norm: real, more: real)
    requires c > 0.0 && norm >= 0.0 && more >= 0.0
    ensures Gap(c, norm, more) >= 0.0 && (norm > 0.0 && more > 0.0 ==> Gap(c, norm, more) > 0.0)
  {
    ProductSign(c, norm);
    ProductSign(c * norm, more);
  }

  lemma CrossedGap(c: real, norm: real, tf: real, tf': real)
    ensures Crossed(c, norm, tf', tf) == Crossed(c, norm, tf, tf') + Gap(c, norm, tf' - tf)
  {
  }

  lemma {:induction false} SumGrows(terms: set<string>, f: string -> real, g: string -> real)
    requires forall t :: t in terms ==> f(t) <= g(t)
    ensures SumOver(terms, f) <= SumOver(terms, g)
    ensures (exists t :: t in terms && f(t) < g(t)) ==> SumOver(terms, f) < SumOver(terms, g)
  {
    if terms == {} {
      SumOfNothing(f);
      SumOfNothing(g);
    } else {
      var t :| t in terms;
      hide SumOver;
      SumTakesAny(terms, f, t);
      SumTakesAny(terms, g, t);
      SumGrows(terms - {t}, f, g);
    }
  }

  lemma NormShape(k1: real, b: real, length: nat, average: real) returns (scale: real)
    requires Standard(k1, b) && length > 0
    ensures scale > 0.0 && NormFactor(k1, b, length, average) == k1 * scale
  {
    var longest := if average > 1.0 then average else 1.0;
    ProductSign(b, length as real);
    QuotientSign(b * length as real, longest);
    scale := 1.0 - b + b * length as real / longest;
  }

  lemma NormPositive(k1: real, b: real, length: nat, average: real)
    requires Standard(k1, b) && k1 > 0.0 && length > 0
    ensures NormFactor(k1, b, length, average) > 0.0
  {
    hide NormFactor;
    var scale := NormShape(k1, b, length, average);
    ProductSign(k1, scale);
  }

  /** Main result: better matches rank higher. Of two chunks of the same length, the one in which
      every query term occurs at least as often scores at least as high, and strictly higher when
      some query term occurs more often in it (for k1 > 0). */
  lemma MoreMatchesScoreHigher(log: real -> real, chunk: Tokens, better: Tokens, query: Tokens,
                               corpus: seq<Tokens>, k1: real, b: real)
    requires IsLog(log) && Standard(k1, b) && corpus != [] && |chunk| == |better|
    requires forall t :: t in query ==> Occurrences(chunk, t) <= Occurrences(better, t)
    ensures Score(log, chunk, query, corpus, k1, b) <= Score(log, better, query, corpus, k1, b)
    ensures k1 > 0.0 && (exists t :: t in query && Occurrences(chunk, t) < Occurrences(better, t)) ==>
              Score(log, chunk, query, corpus, k1, b) < Score(log, better, query, corpus, k1, b)
  {
    hide Idf, NormFactor, AverageLength, SumOver, TermScore, Frequency, Occurrences;
    if chunk != [] {
      var f, g := TermScoreOf(log, chunk, corpus, k1, b), TermScoreOf(log, better, corpus, k1, b);
      var norm := NormFactor(k1, b, |chunk|, AverageLength(corpus));
      NormNonNegative(k1, b, |chunk|, AverageLength(corpus));
      if k1 > 0.0 {
        NormPositive(k1, b, |chunk|, AverageLength(corpus));
      }
      forall t | t in query
        ensures f(t) <= g(t)
        ensures k1 > 0.0 && Occurrences(chunk, t) < Occurrences(better, t) ==> f(t) < g(t)
      {
        IdfPositive(log, corpus, t);
        FrequencyFacts(chunk, t);
        FrequencyOrder(chunk, better, t);
        TermScoreGrows(Frequency(chunk, t), Frequency(better, t), Idf(log, corpus, t), k1, norm);
      }
      SumGrows(TermsOf(query), f, g);
    } else {
      EmptyHasNone(query);
    }
  }

  lemma FrequencyOrder(chunk: Tokens, better: Tokens, term: string)
    requires |chunk| == |better| > 0
    ensures Occurrences(chunk, term) <= Occurrences(better, term) ==> Frequency(chunk, term) <= Frequency(better, term)
    ensures Occurrences(chunk, term) < Occurrences(better, term) ==> Frequency(chunk, term) < Frequency(better, term)
  {
    var n, p, q := |chunk| as real, Occurrences(chunk, term) as real, Occurrences(better, term) as real;
    ScaledOrder(p, q, n);
    QuotientOrder(p, n, q, n);
  }

  lemma EmptyHasNone(query: Tokens)
    ensures forall t :: Occurrences([], t) == 0
  {
  }

  ghost predicate IsIncreasing(log: real -> real) {
    forall x, y :: 0.0 < x < y ==> log(x) < log(y)
  }

  /** Rarer terms weigh more: exactly the ones in fewer documents of the corpus. */
  lemma RarerTermsWeighMore(log: real -> real, corpus: seq<Tokens>, s: string, t: string)
    requires IsIncreasing(log) && corpus != []
    ensures Idf(log, corpus, s) > Idf(log, corpus, t) <==> DocumentFrequency(corpus, s) < DocumentFrequency(corpus, t)
  {
    hide DocumentFrequency;
    var n, p, q := |corpus| as real, DocumentFrequency(corpus, s) as real, DocumentFrequency(corpus, t) as real;
    DocumentFrequencyBound(corpus, s);
    DocumentFrequencyBound(corpus, t);
    RatioFalls(n, p, q);
    RatioFalls(n, q, p);
  }

  lemma RatioFalls(n: real, p: real, q: real)
    requires 0.0 <= p <= n && 0.0 <= q <= n
    ensures (n - p + 0.5) / (p + 0.5) + 1.0 > 0.0
    ensures p < q ==> (n - q + 0.5) / (q + 0.5) + 1.0 < (n - p + 0.5) / (p + 0.5) + 1.0
  {
    QuotientSign(n - p + 0.5, p + 0.5);
    if p < q {
      ScaledOrder(p, q, n + 1.0);
      assert (n - q + 0.5) * (p + 0.5) - (n - p + 0.5) * (q + 0.5) == (p - q) * (n + 1.0);
      QuotientOrder(n - q + 0.5, q + 0.5, n - p + 0.5, p + 0.5);
    }
  }

  /** Against an empty corpus every IDF, and with it the score, is 0. */
  lemma EmptyCorpusScoresZero(log: real -> real, chunk: Tokens, query: Tokens, k1: real, b: real)
    ensures Score(log, chunk, query, [], k1, b) == 0.0
  {
    var f := TermScoreOf(log, chunk, [], k1, b);
    forall t ensures f(t) == 0.0 {
    }
    SumSign(TermsOf(query), f);
  }

  // ---------------------------------------------------------------- order does not matter

  lemma {:induction false} SumDocsConcat(a: seq<Tokens>, b: seq<Tokens>, g: Tokens -> nat)
    ensures SumDocs(a + b, g) == SumDocs(a, g) + SumDocs(b, g)
  {
    if b == [] {
      assert a + b == a;
    } else {
      var n := |b| - 1;
      assert (a + b)[..|a + b| - 1] == a + b[..n];
      SumDocsConcat(a, b[..n], g);
    }
  }

  lemma DropOne(a: seq<Tokens>, x: Tokens, front: seq<Tokens>, back: seq<Tokens>)
    requires multiset(a + [x]) == multiset(front + [x] + back)
    ensures multiset(a) == multiset(front + back)
  {
    assert multiset(a + [x]) == multiset(a) + multiset{x};
    assert multiset(front + [x] + back) == multiset(front + back) + multiset{x};
    assert multiset(a) == multiset(a) + multiset{x} - multiset{x};
    assert multiset(front + back) == multiset(front + back) + multiset{x} - multiset{x};
  }

  lemma {:induction false} SumDocsPermuted(a: seq<Tokens>, b: seq<Tokens>, g: Tokens -> nat)
    requires multiset(a) == multiset(b)
    ensures SumDocs(a, g) == SumDocs(b, g)
    decreases |a|
  {
    if a == [] {
      assert |multiset(b)| == 0;
    } else {
      var n := |a| - 1;
      var x := a[n];
      assert a == a[..n] + [x];
      assert x in multiset(b);
      var i :| 0 <= i < |b| && b[i] == x;
      var front, back := b[..i], b[i + 1..];
      assert b == front + [x] + back;
      DropOne(a[..n], x, front, back);
      SumDocsPermuted(a[..n], front + back, g);
      SumDocsConcat(a[..n], [x], g);
      SumDocsConcat(front + [x], back, g);
      SumDocsConcat(front, [x], g);
      SumDocsConcat(front, back, g);
    }
  }

  /** Main result: the score depends on the bag of corpus documents, the bag of chunk tokens and
      the set of query tokens only, not on any order or on repeated query tokens. */
  lemma ScoreIgnoresOrder(log: real -> real, chunk: Tokens, chunk': Tokens, query: Tokens, query': Tokens,
                          corpus: seq<Tokens>, corpus': seq<Tokens>, k1: real, b: real)
    requires multiset(corpus) == multiset(corpus') && multiset(chunk) == multiset(chunk') && TermsOf(query) == TermsOf(query')
    ensures Score(log, chunk, query, corpus, k1, b) == Score(log, chunk', query', corpus', k1, b)
  {
    SameLength(corpus, corpus');
    SameLength(chunk, chunk');
    SumDocsPermuted(corpus, corpus', Length());
    forall t ensures DocumentFrequency(corpus, t) == DocumentFrequency(corpus', t) {
      SumDocsPermuted(corpus, corpus', Contains(t));
    }
    assert query != [] ==> query[0] in TermsOf(query);
    assert query' != [] ==> query'[0] in TermsOf(query');
    SumPointwise(TermsOf(query), TermScoreOf(log, chunk, corpus, k1, b), TermScoreOf(log, chunk', corpus', k1, b));
  }

  lemma SameLength<T>(a: seq<T>, b: seq<T>)
    requires multiset(a) == multiset(b)
    ensures |a| == |b|
  {
    assert |multiset(a)| == |a| && |multiset(b)| == |b|;
  }

  lemma {:induction false} SumPointwise(terms: set<string>, f: string -> real, g: string -> real)
    requires forall t :: t in terms ==> f(t) == g(t)
    ensures SumOver(terms, f) == SumOver(terms, g)
  {
    if terms != {} {
      var t :| t in terms;
      SumTakesAny(terms, f, t);
      SumTakesAny(terms, g, t);
      SumPointwise(terms - {t}, f, g);
    }
  }

  // ---------------------------------------------------------------- the formula, said about counts

  /** The documents of the corpus that contain the term. */
  function DocumentsWith(corpus: seq<Tokens>, term: string): set<nat> {
    set i: nat | i < |corpus| && term in corpus[i]
  }

  lemma {:induction false} CountsDocuments(corpus: seq<Tokens>, term: string)
    ensures DocumentFrequency(corpus, term) == |DocumentsWith(corpus, term)|
  {
    if corpus == [] {
      assert DocumentsWith(corpus, term) == {};
    } else {
      var n := |corpus| - 1;
      CountsDocuments(corpus[..n], term);
      var before, all := DocumentsWith(corpus[..n], term), DocumentsWith(corpus, term);
      assert n !in before;
      assert all == if n in all then before + {n} else before;
    }
  }

  function TotalLength(corpus: seq<Tokens>): nat {
    if corpus == [] then 0 else |corpus[0]| + TotalLength(corpus[1..])
  }

  lemma {:induction false} SumsLengths(corpus: seq<Tokens>)
    ensures SumDocs(corpus, Length()) == TotalLength(corpus)
  {
    if corpus != [] {
      SumsLengths(corpus[1..]);
      SumDocsConcat([corpus[0]], corpus[1..], Length());
      assert [corpus[0]] + corpus[1..] == corpus;
      assert [corpus[0]][..0] == [] && SumDocs([corpus[0]], Length()) == |corpus[0]|;
    }
  }

  lemma AverageIs(corpus: seq<Tokens>)
    requires corpus != []
    ensures IsShare(AverageLength(corpus), TotalLength(corpus), |corpus|)
  {
    hide IsShare, TotalLength, SumDocs;
    SumsLengths(corpus);
    RelativeIsShare(TotalLength(corpus), |corpus|);
    assert AverageLength(corpus) == Relative(TotalLength(corpus), |corpus|);
  }

  /** (N - df + 1/2) / (df + 1/2) + 1 is (N + 1) / (df + 1/2). */
  lemma IdfIs(log: real -> real, corpus: seq<Tokens>, term: string)
    requires corpus != []
    ensures Idf(log, corpus, term) == log((|corpus| as real + 1.0) / (|DocumentsWith(corpus, term)| as real + 0.5))
  {
    hide DocumentFrequency, DocumentsWith;
    CountsDocuments(corpus, term);
    AddedOne(|corpus| as real, DocumentFrequency(corpus, term) as real);
  }

  lemma AddedOne(n: real, df: real)
    requires df >= 0.0
    ensures (n - df + 0.5) / (df + 0.5) + 1.0 == (n + 1.0) / (df + 0.5)
  {
    var y := df + 0.5;
    SumOfQuotients(n - df + 0.5, y);
    assert n - df + 0.5 + y == n + 1.0;
  }

  lemma SumOfQuotients(x: real, y: real)
    requires y > 0.0
    ensures x / y + 1.0 == (x + y) / y
  {
    var q := (x + y) / y;
    assert q * y == x + y;
    assert (q - 1.0) * y == x;
    QuotientOf(q - 1.0, x, y);
  }

  lemma QuotientOf(q: real, x: real, y: real)
    requires y > 0.0 && q * y == x
    ensures q == x / y
  {
    ShareOfWhole(x, y);
    ScaledOrder(q, x / y, y);
    ScaledOrder(x / y, q, y);
  }

  /** Length normalization: k1 times (1 - b + b * length / max(average, 1)), cleared of the quotient. */
  lemma NormIs(k1: real, b: real, length: nat, average: real)
    ensures var m := if average > 1.0 then average else 1.0;
            IsNorm(NormFactor(k1, b, length, average), k1, b, length, m)
  {
    hide NormOver, IsNorm;
    NormOverIs(k1, b, length, if average > 1.0 then average else 1.0);
  }

  lemma NormOverIs(k1: real, b: real, length: nat, m: real)
    requires m > 0.0
    ensures IsNorm(NormOver(k1, b, length, m), k1, b, length, m)
  {
    NormTimes(k1, b, length as real, m);
  }

  predicate IsNorm(norm: real, k1: real, b: real, length: nat, m: real) {
    norm * m == k1 * (m - b * m + b * length as real)
  }

  lemma NormTimes(k1: real, b: real, length: real, m: real)
    requires m > 0.0
    ensures k1 * (1.0 - b + b * length / m) * m == k1 * (m - b * m + b * length)
  {
    var part := b * length / m;
    assert part * m == b * length;
    assert (1.0 - b + part) * m == m - b * m + b * length;
    Associate(k1, 1.0 - b + part, m);
  }

  lemma Associate(x: real, y: real, z: real)
    ensures x * y * z == x * (y * z)
  {
  }

  predicate IsTermScore(score: real, tf: real, idf: real, k1: real, norm: real) {
    score * (tf + norm) == idf * (tf * (k1 + 1.0))
  }

  lemma SaturatedIs(tf: real, idf: real, k1: real, norm: real)
    requires tf > 0.0 && norm >= 0.0
    ensures IsTermScore(Saturated(tf, idf, k1, norm), tf, idf, k1, norm)
  {
    ShareOfWhole(idf * (tf * (k1 + 1.0)), tf + norm);
  }

  /** Main result: the score of one term. With f its share of the chunk, N documents of which df have
      it, and m the average length of a document but at least 1, the score s of a term of the chunk
      satisfies s * (f + norm) == log((N + 1) / (df + 1/2)) * f * (k1 + 1) with
      norm * m == k1 * (m - b * m + b * length); a term the chunk lacks scores 0. */
  lemma ScoreOfTerm(log: real -> real, chunk: Tokens, term: string, corpus: seq<Tokens>, k1: real, b: real)
    returns (f: real, average: real, norm: real)
    requires IsLog(log) && Standard(k1, b) && corpus != [] && chunk != []
    ensures IsShare(f, multiset(chunk)[term], |chunk|) && IsShare(average, TotalLength(corpus), |corpus|)
    ensures IsNorm(norm, k1, b, |chunk|, if average > 1.0 then average else 1.0)
    ensures var idf := log((|corpus| as real + 1.0) / (|DocumentsWith(corpus, term)| as real + 0.5));
            if term in chunk then IsTermScore(Score(log, chunk, [term], corpus, k1, b), f, idf, k1, norm)
            else Score(log, chunk, [term], corpus, k1, b) == 0.0
  {
    hide Idf, NormFactor, AverageLength, SumOver, Frequency, IsShare, IsNorm, IsTermScore, DocumentsWith, TotalLength, Saturated;
    f, average := Frequency(chunk, term), AverageLength(corpus);
    norm := NormFactor(k1, b, |chunk|, average);
    FrequencyIsShare(chunk, term);
    AverageIs(corpus);
    NormIs(k1, b, |chunk|, average);
    NormNonNegative(k1, b, |chunk|, average);
    IdfIs(log, corpus, term);
    IdfPositive(log, corpus, term);
    FrequencyFacts(chunk, term);
    var g := TermScoreOf(log, chunk, corpus, k1, b);
    assert TermsOf([term]) == {term};
    SumOfOne(g, term);
    if term in chunk {
      SaturatedIs(f, Idf(log, corpus, term), k1, norm);
    }
  }

  lemma SumOfOne(f: string -> real, t: string)
    ensures SumOver({t}, f) == f(t)
  {
    SumTakesAny({t}, f, t);
    assert {t} - {t} == {};
    SumOfNothing(f);
  }

  lemma {:induction false} SumOfUnion(a: set<string>, b: set<string>, f: string -> real)
    requires a !! b
    ensures SumOver(a + b, f) == SumOver(a, f) + SumOver(b, f)
  {
    hide SumOver;
    if a == {} {
      SumOfNothing(f);
      assert a + b == b;
    } else {
      var t :| t in a;
      SumOfUnion(a - {t}, b, f);
      SumTakesAny(a, f, t);
      SumTakesAny(a + b, f, t);
      assert a + b - {t} == (a - {t}) + b;
    }
  }

  /** Main result: and the score of a query is the sum over its terms. Two queries without a common
      term score together what they score apart. */
  lemma ScoreAddsUp(log: real -> real, chunk: Tokens, query: Tokens, more: Tokens, corpus: seq<Tokens>, k1: real, b: real)
    requires forall t :: t in query ==> t !in more
    ensures Score(log, chunk, query + more, corpus, k1, b)
            == Score(log, chunk, query, corpus, k1, b) + Score(log, chunk, more, corpus, k1, b)
  {
    hide SumOver, TermScoreOf;
    var f := TermScoreOf(log, chunk, corpus, k1, b);
    assert TermsOf(query + more) == TermsOf(query) + TermsOf(more);
    assert TermsOf([]) == {};
    SumOfNothing(f);
    SumOfUnion(TermsOf(query), TermsOf(more), f);
    assert query + [] == query && [] + more == more;
  }

  // ---------------------------------------------------------------- long chunks

  lemma NormGrows(k1: real, b: real, length: nat, longer: nat, average: real)
    requires Standard(k1, b) && length <= longer
    ensures NormFactor(k1, b, length, average) <= NormFactor(k1, b, longer, average)
    ensures length < longer && k1 > 0.0 && b > 0.0 ==> NormFactor(k1, b, length, average) < NormFactor(k1, b, longer, average)
  {
    var m := if average > 1.0 then average else 1.0;
    hide IsNorm;
    NormIs(k1, b, length, average);
    NormIs(k1, b, longer, average);
    NormOrder(NormFactor(k1, b, length, average), NormFactor(k1, b, longer, average), k1, b, length, longer, m);
  }

  lemma NormOrder(p: real, q: real, k1: real, b: real, length: nat, longer: nat, m: real)
    requires m > 0.0 && k1 >= 0.0 && b >= 0.0 && length <= longer && IsNorm(p, k1, b, length, m) && IsNorm(q, k1, b, longer, m)
    ensures p <= q && (length < longer && k1 > 0.0 && b > 0.0 ==> p < q)
  {
    var more := (longer - length) as real;
    if k1 > 0.0 {
      GapSign(k1, b, more);
      assert q * m - p * m == k1 * b * more by { Difference(p, q, k1, b, length as real, longer as real, m); }
    } else {
      assert p * m == 0.0 && q * m == 0.0;
    }
    ScaledOrder(p, q, m);
    ScaledOrder(q, p, m);
  }

  lemma Difference(p: real, q: real, k1: real, b: real, length: real, longer: real, m: real)
    requires p * m == k1 * (m - b * m + b * length) && q * m == k1 * (m - b * m + b * longer)
    ensures q * m - p * m == k1 * b * (longer - length)
  {
  }

  lemma SaturatedFalls(tf: real, idf: real, k1: real, norm: real, norm': real)
    requires tf > 0.0 && idf > 0.0 && k1 >= 0.0 && 0.0 <= norm <= norm'
    ensures TermScore(tf, idf, k1, norm') <= TermScore(tf, idf, k1, norm)
    ensures norm < norm' ==> TermScore(tf, idf, k1, norm') < TermScore(tf, idf, k1, norm)
  {
    var x := idf * (tf * (k1 + 1.0));
    ProductSign(tf, k1 + 1.0);
    ProductSign(idf, tf * (k1 + 1.0));
    ScaledOrder(tf + norm, tf + norm', x);
    QuotientOrder(x, tf + norm', x, tf + norm);
    Commute(x, tf + norm, tf + norm');
  }

  lemma Commute(x: real, y: real, z: real)
    ensures x * y == y * x && x * z == z * x
  {
  }

  /** Main result: long chunks are marked down. Of two chunks in which each query term has the same
      share, the shorter scores at least as high, and strictly higher if it is strictly shorter,
      contains a query term, and neither k1 nor b is 0. */
  lemma ShorterScoresHigher(log: real -> real, chunk: Tokens, longer: Tokens, query: Tokens, corpus: seq<Tokens>, k1: real, b: real)
    requires IsLog(log) && Standard(k1, b) && corpus != [] && 0 < |chunk| <= |longer|
    requires forall t :: t in query ==> Frequency(chunk, t) == Frequency(longer, t)
    ensures Score(log, longer, query, corpus, k1, b) <= Score(log, chunk, query, corpus, k1, b)
    ensures |chunk| < |longer| && k1 > 0.0 && b > 0.0 && (exists t :: t in query && t in chunk) ==>
              Score(log, longer, query, corpus, k1, b) < Score(log, chunk, query, corpus, k1, b)
  {
    hide Idf, NormFactor, AverageLength, SumOver, TermScore, Frequency;
    var f, g := TermScoreOf(log, longer, corpus, k1, b), TermScoreOf(log, chunk, corpus, k1, b);
    var average := AverageLength(corpus);
    NormNonNegative(k1, b, |chunk|, average);
    NormGrows(k1, b, |chunk|, |longer|, average);
    forall t | t in query
      ensures f(t) <= g(t)
      ensures |chunk| < |longer| && k1 > 0.0 && b > 0.0 && t in chunk ==> f(t) < g(t)
    {
      IdfPositive(log, corpus, t);
      FrequencyFacts(chunk, t);
      if t in chunk {
        SaturatedFalls(Frequency(chunk, t), Idf(log, corpus, t), k1,
                       NormFactor(k1, b, |chunk|, average), NormFactor(k1, b, |longer|, average));
      } else {
        ZeroFrequency(Frequency(chunk, t), Idf(log, corpus, t), k1, NormFactor(k1, b, |chunk|, average));
        ZeroFrequency(Frequency(chunk, t), Idf(log, corpus, t), k1, NormFactor(k1, b, |longer|, average));
      }
    }
    SumGrows(TermsOf(query), f, g);
  }

  // ---------------------------------------------------------------- token_overlap_score

  /** `tokenize` stands for the word-character tokenizer. */
  method TokenOverlapScore(tokenize: string -> Tokens, log: real -> real, chunkText: string, query: string, corpusTexts: seq<string>)
    returns (score: real)
    ensures var chunk, terms := tokenize(chunkText), tokenize(query);
            score == if chunk == [] || terms == [] then 0.0
                     else if corpusTexts == [] then Overlap(chunk, terms)
                     else Score(log, chunk, terms, seq(|corpusTexts|, i requires 0 <= i < |corpusTexts| => tokenize(corpusTexts[i])), 1.2, 0.75)
  {
    var queryTokens, chunkTokens := tokenize(query), tokenize(chunkText);
    if queryTokens == [] || chunkTokens == [] {
      return 0.0;
    }
    if corpusTexts == [] {
      return Overlap(chunkTokens, queryTokens);
    }
    var corpus := seq(|corpusTexts|, i requires 0 <= i < |corpusTexts| => tokenize(corpusTexts[i]));
    StandardDivides(log, chunkTokens, queryTokens, corpus, 1.2, 0.75);
    var scored := Bm25ScoreTokens(log, chunkTokens, queryTokens, corpus, 1.2, 0.75);
    score := scored.value;
  }

  function Overlap(chunk: Tokens, query: Tokens): real
    requires query != []
  {
    |TermsOf(chunk) * TermsOf(query)| as real / |query| as real
  }

  /** Without a corpus the score is the share of the query tokens that the common terms are. */
  lemma OverlapIs(chunk: Tokens, query: Tokens)
    requires query != []
    ensures IsShare(Overlap(chunk, query), |set t | t in chunk && t in query|, |query|)
  {
    var common := set t | t in chunk && t in query;
    assert TermsOf(chunk) * TermsOf(query) == common;
    RelativeIsShare(|common|, |query|);
  }

  /** Without a corpus the score is a ratio, positive exactly when the texts share a token. */
  lemma OverlapBounds(chunk: Tokens, query: Tokens)
    requires query != []
    ensures 0.0 <= Overlap(chunk, query) <= 1.0
    ensures Overlap(chunk, query) > 0.0 <==> exists t :: t in chunk && t in query
  {
    var common := TermsOf(chunk) * TermsOf(query);
    TermsCount(query);
    SubsetCount(common, TermsOf(query));
    QuotientSign(|common| as real, |query| as real);
    QuotientBound(|common| as real, 1.0, |query| as real);
    if t :| t in chunk && t in query {
      assert t in common;
      SubsetCount({t}, common);
    } else {
      assert common == {};
    }
  }

  lemma {:induction false} TermsCount(tokens: Tokens)
    ensures |TermsOf(tokens)| <= |tokens|
  {
    if tokens != [] {
      var n := |tokens| - 1;
      TermsCount(tokens[..n]);
      assert tokens == tokens[..n] + [tokens[n]];
      assert TermsOf(tokens) == TermsOf(tokens[..n]) + {tokens[n]};
    } else {
      assert TermsOf(tokens) == {};
    }
  }

  lemma SubsetCount(a: set<string>, b: set<string>)
    requires a <= b
    ensures |a| <= |b|
  {
    assert b == a + (b - a);
  }
}
