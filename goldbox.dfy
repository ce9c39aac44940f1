/** The deals-page pipeline after scraping (src/pages/goldbox.js): mapping fragments to products,
    the four-part filter, the score, the score cut with a stable descending sort, and the bounded
    availability-check loop. */
module Goldbox {
  import opened Wrappers
  import opened Text
  import opened Extractor
  import opened Affiliate
  import opened Offers
  import opened Sequences

  // ---------------------------------------------------------------------------
  // Configuration
  // ---------------------------------------------------------------------------

  const DefaultAffiliateTag := "toppromobr054-20"
  const MinPrice: real := 20.0
  const MaxPrice: real := 1500.0
  const MinDiscount: real := 25.0
  const RequirePrime := false
  const MaxValidations := 12
  const TargetValidProducts := 8
  const MinProductScore := 60

  const BlockedKeywords: seq<string> := [
    "livro", "apostila", "edição escolar", "usado", "reembalado",
    "refil", "peça de reposição", "recarga", "ebook", "e-book",
    "revista", "jornal", "assinatura", "gift card", "vale presente",
    "curso online", "treinamento", "seminário", "Matemática"
  ]

  /** `process.env.AMAZON_AFFILIATE_TAG || 'toppromobr054-20'`. */
  function AffiliateTag(env: Option<string>): (tag: string)
    ensures tag != ""
    ensures !Blank(env) ==> tag == env.value
  {
    if Blank(env) then DefaultAffiliateTag else env.value
  }

  // ---------------------------------------------------------------------------
  // Mapping scraped fragments to products
  // ---------------------------------------------------------------------------

  /** The link a product is published with: the affiliate link when an ASIN was found and the
      builder did not throw, otherwise the scraped link. */
  function FinalLink(scraped: string, asin: Option<string>, tag: string): string {
    if asin.None? then scraped
    else
      match BuildAffiliateLink(asin, Some(tag))
      case Success(link) => link
      case Failure(_) => scraped
  }

  /** One element of `products.map(...)` in `scrapeGoldbox`. */
  function MapProduct(raw: RawFragment, category: string, tag: string): Product {
    var price := ParsePrice(Some(raw.priceStr));
    var oldPrice := ParsePrice(raw.oldPriceStr);
    var asin := ExtractAsin(raw.link);
    Product(raw.title, price, oldPrice, CalculateDiscount(oldPrice, price), asin,
            FinalLink(raw.link, asin, tag), raw.prime, category, None, None)
  }

  function MapProducts(raws: seq<RawFragment>, category: string, tag: string): (ps: seq<Product>)
    ensures |ps| == |raws|
    ensures forall i :: 0 <= i < |raws| ==> ps[i] == MapProduct(raws[i], category, tag)
  {
    Map(raws, (raw: RawFragment) => MapProduct(raw, category, tag))
  }

  /** The mapped link is the affiliate link exactly when an ASIN was extracted; otherwise it is the
      scraped link unchanged. */
  lemma MappedLink(raw: RawFragment, category: string, tag: string)
    requires tag != ""
    ensures var p := MapProduct(raw, category, tag);
            && p.asin == ExtractAsin(raw.link)
            && (p.asin.Some? ==> p.link == LinkBase + p.asin.value + TagQuery + tag)
            && (p.asin.None? ==> p.link == raw.link)
  {
    var asin := ExtractAsin(raw.link);
    if asin.Some? {
      assert IsAsin(asin.value);
      assert !Blank(asin);
    }
  }

  /** Rewriting the link never changes the ASIN that the link yields. */
  lemma MappedLinkKeepsAsin(raw: RawFragment, category: string, tag: string)
    requires tag != ""
    ensures ExtractAsin(MapProduct(raw, category, tag).link) == ExtractAsin(raw.link)
  {
    MappedLink(raw, category, tag);
    var asin := ExtractAsin(raw.link);
    if asin.Some? {
      ExtractAsinOfAffiliateLink(asin.value, tag);
    }
  }

  /** Mapped prices are null or positive, and the mapped discount lies in [0, 100]. */
  lemma MappedDiscountInRange(raw: RawFragment, category: string, tag: string)
    ensures var p := MapProduct(raw, category, tag);
            && (p.price.Some? ==> p.price.value > 0.0)
            && 0.0 <= p.discount <= 100.0
  {
    var price := ParsePrice(Some(raw.priceStr));
    var oldPrice := ParsePrice(raw.oldPriceStr);
    if price.Some? && oldPrice.Some? && oldPrice.value > price.value {
      DiscountOfDrop(oldPrice.value, price.value);
    }
  }

  // ---------------------------------------------------------------------------
  // Filter
  // ---------------------------------------------------------------------------

  /** A price as the `<`/`>` comparisons see it: null compares as 0. */
  function PriceAsNumber(price: Option<real>): real { price.GetOr(0.0) }

  /** The keyword loop: some blocked keyword occurs in the lower-cased title. */
  predicate HasBlockedKeyword(titleLower: string) {
    exists i :: 0 <= i < |BlockedKeywords| && Contains(titleLower, BlockedKeywords[i])
  }

  /** The filter callback of `scrapeGoldbox`, with `REQUIRE_PRIME` as a parameter. */
  predicate PassesFilter(p: Product, requirePrime: bool) {
    if PriceAsNumber(p.price) < MinPrice || PriceAsNumber(p.price) > MaxPrice then false
    else if p.discount == 0.0 || p.discount < MinDiscount then false
    else if requirePrime && !p.prime then false
    else !HasBlockedKeyword(ToLower(p.title))
  }

  /** `products.filter(...)` with the callback above: the passing products, each as often as it
      occurs, in extraction order. */
  function FilterProducts(ps: seq<Product>, requirePrime: bool): (r: seq<Product>)
    ensures |r| <= |ps|
    ensures forall q :: q in r ==> q in ps && PassesFilter(q, requirePrime)
    ensures forall q :: q in ps && PassesFilter(q, requirePrime) ==> q in r
    ensures forall q :: PassesFilter(q, requirePrime) ==> multiset(r)[q] == multiset(ps)[q]
    ensures SubsequenceOf(r, ps)
  {
    var passes := (p: Product) => PassesFilter(p, requirePrime);
    FilterCounts(ps, passes);
    FilterInOrder(ps, passes);
    Filter(ps, passes)
  }

  /** What the filter accepts, stated without JavaScript's null-to-0 comparison: a present price in
      [20, 1500], a discount of at least 25, Prime when required, and no blocked keyword. */
  lemma PassesFilterIff(p: Product, requirePrime: bool)
    ensures PassesFilter(p, requirePrime) <==>
      && p.price.Some? && MinPrice <= p.price.value <= MaxPrice
      && p.discount >= MinDiscount
      && (requirePrime ==> p.prime)
      && forall k :: k in BlockedKeywords ==> !Contains(ToLower(p.title), k)
  {
    if PassesFilter(p, requirePrime) {
      assert p.price.Some?;
    }
    if forall k :: k in BlockedKeywords ==> !Contains(ToLower(p.title), k) {
      assert !HasBlockedKeyword(ToLower(p.title));
    } else {
      var k :| k in BlockedKeywords && Contains(ToLower(p.title), k);
      var i :| 0 <= i < |BlockedKeywords| && BlockedKeywords[i] == k;
      assert HasBlockedKeyword(ToLower(p.title));
    }
  }

  /** The keyword "Matemática" starts with a capital letter, so no lower-cased title contains it:
      it never blocks anything. */
  lemma CapitalisedKeywordNeverMatches(title: string)
    ensures BlockedKeywords[18] == "Matemática"
    ensures !Contains(ToLower(title), BlockedKeywords[18])
  {
    LowerNeverContainsUnlowered(title, "Matemática", 0);
  }

  // ---------------------------------------------------------------------------
  // Score
  // ---------------------------------------------------------------------------

  /** `Math.round` for the non-negative scores computed here: round half up. */
  function JsRound(x: real): int { (x + 0.5).Floor }

  function DiscountPoints(discount: real): real {
    if discount >= 50.0 then 50.0
    else if discount >= 40.0 then 40.0
    else if discount >= 30.0 then 30.0
    else discount * 0.6
  }

  function PrimePoints(prime: bool): real { if prime then 20.0 else 0.0 }

  /** The price band; a null price compares as 0 and falls in the lowest band. */
  function PriceBandPoints(price: Option<real>): real {
    var v := PriceAsNumber(price);
    if 50.0 <= v <= 500.0 then 30.0
    else if 30.0 <= v <= 800.0 then 20.0
    else 10.0
  }

  /** `calculateProductScore`. */
  function ProductScore(p: Product): int {
    JsRound(DiscountPoints(p.discount) + PrimePoints(p.prime) + PriceBandPoints(p.price))
  }

  /** `calculateProductScore` as the source writes it, accumulating into `score`. */
  method CalculateProductScore(p: Product) returns (score: int)
    ensures score == ProductScore(p)
    ensures 0.0 <= p.discount <= 100.0 ==> 10 <= score <= 100
  {
    var acc: real := 0.0;
    if p.discount >= 50.0 {
      acc := acc + 50.0;
    } else if p.discount >= 40.0 {
      acc := acc + 40.0;
    } else if p.discount >= 30.0 {
      acc := acc + 30.0;
    } else {
      acc := acc + p.discount * 0.6;
    }
    if p.prime {
      acc := acc + 20.0;
    }
    var v := PriceAsNumber(p.price);
    if v >= 50.0 && v <= 500.0 {
      acc := acc + 30.0;
    } else if v >= 30.0 && v <= 800.0 {
      acc := acc + 20.0;
    } else {
      acc := acc + 10.0;
    }
    score := JsRound(acc);
    if 0.0 <= p.discount <= 100.0 {
      ScoreBounds(p);
    }
  }

  /** For a discount in [0, 100] the score lies in [10, 100]. */
  lemma ScoreBounds(p: Product)
    requires 0.0 <= p.discount <= 100.0
    ensures 10 <= ProductScore(p) <= 100
  {
    var s := DiscountPoints(p.discount) + PrimePoints(p.prime) + PriceBandPoints(p.price);
    assert 10.0 <= s <= 100.0;
    JsRoundMonotone(10.0, s);
    JsRoundMonotone(s, 100.0);
  }

  lemma JsRoundMonotone(x: real, y: real)
    requires x <= y
    ensures JsRound(x) <= JsRound(y)
  {
  }

  /** A larger discount never lowers the score. */
  lemma ScoreMonotoneInDiscount(p: Product, discount: real)
    requires 0.0 <= p.discount <= discount
    ensures ProductScore(p) <= ProductScore(p.(discount := discount))
  {
    assert DiscountPoints(p.discount) <= DiscountPoints(discount);
    JsRoundMonotone(DiscountPoints(p.discount) + PrimePoints(p.prime) + PriceBandPoints(p.price),
                    DiscountPoints(discount) + PrimePoints(p.prime) + PriceBandPoints(p.price));
  }

  /** A product struck from 100 to 70, not Prime, has discount 30, passes the filter and scores
      30 + 0 + 30 = 60, which survives the cut. */
  lemma ScoreExample(title: string)
    requires !HasBlockedKeyword(ToLower(title))
    ensures var p := Product(title, Some(70.0), Some(100.0), CalculateDiscount(Some(100.0), Some(70.0)),
                             None, "", false, "", None, None);
            && p.discount == 30.0
            && PassesFilter(p, RequirePrime)
            && ProductScore(p) == 60
            && ProductScore(p) >= MinProductScore
  {
    assert (30.0 * 100.0 + 0.5).Floor == 3000;
  }

  // ---------------------------------------------------------------------------
  // Score cut and stable descending sort
  // ---------------------------------------------------------------------------

  /** `{...p, score: calculateProductScore(p)}`. */
  function WithScore(p: Product): Product { p.(score := Some(ProductScore(p))) }

  /** The sort key; every ranked product carries a score. */
  function ScoreKey(p: Product): int { p.score.GetOr(0) }

  /** A ranked product that survives the cut: it carries a score of at least 60. */
  predicate Qualifies(q: Product) { q.score.Some? && q.score.value >= MinProductScore }

  /** `filteredProducts.map(withScore).filter(p => p.score >= MIN_PRODUCT_SCORE)`: the scored
      products whose score is at least 60, each as often as it occurs, in the order of `ps`. */
  function ScoreAndCut(ps: seq<Product>): (r: seq<Product>)
    ensures |r| <= |ps|
    ensures forall q :: q in r ==> q.score.Some? && ScoreKey(q) >= MinProductScore
    ensures forall q :: q in r ==> exists p :: p in ps && q == WithScore(p)
    ensures forall p :: p in ps && ProductScore(p) >= MinProductScore ==> WithScore(p) in r
    ensures forall q :: Qualifies(q) ==> multiset(r)[q] == multiset(Map(ps, WithScore))[q]
    ensures SubsequenceOf(r, Map(ps, WithScore))
  {
    var scored := Map(ps, WithScore);
    MapMembers(ps, WithScore);
    FilterCounts(scored, Qualifies);
    FilterInOrder(scored, Qualifies);
    Filter(scored, Qualifies)
  }

  /** Sorted by descending score. */
  predicate SortedDesc(s: seq<Product>) {
    forall i, j :: 0 <= i < j < |s| ==> ScoreKey(s[i]) >= ScoreKey(s[j])
  }

  /** The elements of `s` with score `k`, in order: a stable sort leaves this unchanged for every k. */
  function WithKey(s: seq<Product>, k: int): seq<Product> {
    if s == [] then []
    else if ScoreKey(s[0]) == k then [s[0]] + WithKey(s[1..], k)
    else WithKey(s[1..], k)
  }

  /** Inserts `x` before the first element whose score is not above its own. */
  function InsertByScore(x: Product, s: seq<Product>): (r: seq<Product>)
    ensures |r| == |s| + 1
    ensures multiset(r) == multiset(s) + multiset{x}
  {
    if s == [] || ScoreKey(s[0]) <= ScoreKey(x) then [x] + s
    else
      assert s == [s[0]] + s[1..];
      [s[0]] + InsertByScore(x, s[1..])
  }

  lemma {:induction false} InsertKeepsSorted(x: Product, s: seq<Product>)
    requires SortedDesc(s)
    ensures SortedDesc(InsertByScore(x, s))
  {
    if s != [] && ScoreKey(s[0]) > ScoreKey(x) {
      var t := InsertByScore(x, s[1..]);
      InsertKeepsSorted(x, s[1..]);
      forall q | q in t
        ensures ScoreKey(q) <= ScoreKey(s[0])
      {
        assert q in multiset(t);
        if q != x {
          assert q in multiset(s[1..]);
          var k :| 0 <= k < |s[1..]| && s[1..][k] == q;
          assert s[k + 1] == q;
        }
      }
      HeadAboveRest(s[0], t);
    }
  }

  /** A sorted list stays sorted under a head whose score is at least every score in it. */
  lemma HeadAboveRest(h: Product, t: seq<Product>)
    requires SortedDesc(t)
    requires forall q :: q in t ==> ScoreKey(q) <= ScoreKey(h)
    ensures SortedDesc([h] + t)
  {
    var r := [h] + t;
    forall i, j | 0 <= i < j < |r|
      ensures ScoreKey(r[i]) >= ScoreKey(r[j])
    {
      assert r[j] == t[j - 1];
      if i > 0 {
        assert r[i] == t[i - 1];
      } else {
        assert t[j - 1] in t;
      }
    }
  }

  /** Insertion puts `x` after every element with its score: the elements with any one score keep
      their order, with `x` in front of those that share its score. */
  lemma {:induction false} InsertWithKey(x: Product, s: seq<Product>, k: int)
    ensures WithKey(InsertByScore(x, s), k) == if ScoreKey(x) == k then [x] + WithKey(s, k) else WithKey(s, k)
  {
    if s == [] || ScoreKey(s[0]) <= ScoreKey(x) {
      assert ([x] + s)[1..] == s;
    } else {
      var t := InsertByScore(x, s[1..]);
      InsertWithKey(x, s[1..], k);
      assert ([s[0]] + t)[1..] == t;
    }
  }

  /** `productsWithScore.sort((a, b) => b.score - a.score)`: a stable sort by descending score. */
  function SortByScoreDesc(s: seq<Product>): (r: seq<Product>)
    ensures |r| == |s|
    ensures multiset(r) == multiset(s)
    ensures SortedDesc(r)
    ensures forall k :: WithKey(r, k) == WithKey(s, k)
  {
    if s == [] then []
    else
      assert s == [s[0]] + s[1..];
      var t := SortByScoreDesc(s[1..]);
      InsertKeepsSorted(s[0], t);
      var r := InsertByScore(s[0], t);
      assert forall k :: WithKey(r, k) == WithKey(s, k) by {
        forall k
          ensures WithKey(r, k) == WithKey(s, k)
        {
          InsertWithKey(s[0], t, k);
        }
      }
      r
  }

  /** The elements with one score form a subsequence. */
  lemma {:induction false} WithKeyInOrder(s: seq<Product>, k: int)
    ensures SubsequenceOf(WithKey(s, k), s)
  {
    if s != [] {
      WithKeyInOrder(s[1..], k);
      var rest := WithKey(s[1..], k);
      if ScoreKey(s[0]) == k {
        assert ([s[0]] + rest)[1..] == rest;
      }
    }
  }

  /** The ranked candidates of one category page. */
  function Candidates(raws: seq<RawFragment>, category: string, tag: string): seq<Product> {
    SortByScoreDesc(ScoreAndCut(FilterProducts(MapProducts(raws, category, tag), RequirePrime)))
  }

  /** Every candidate has a price in [20, 1500], a discount of at least 25, a score of at least 60,
      and the candidates come in descending score order; a product with a null price is never one. */
  lemma CandidatesQualified(raws: seq<RawFragment>, category: string, tag: string)
    ensures SortedDesc(Candidates(raws, category, tag))
    ensures forall q :: q in Candidates(raws, category, tag) ==>
      && q.price.Some? && MinPrice <= q.price.value <= MaxPrice
      && q.discount >= MinDiscount
      && ScoreKey(q) >= MinProductScore
  {
    var filtered := FilterProducts(MapProducts(raws, category, tag), RequirePrime);
    var cut := ScoreAndCut(filtered);
    var sorted := SortByScoreDesc(cut);
    forall q | q in sorted
      ensures q.price.Some? && MinPrice <= q.price.value <= MaxPrice && q.discount >= MinDiscount
      ensures ScoreKey(q) >= MinProductScore
    {
      assert q in multiset(sorted);
      assert q in cut;
      var p :| p in filtered && q == WithScore(p);
      PassesFilterIff(p, RequirePrime);
    }
  }

  /** Every product that passes the filter and scores at least 60 becomes a candidate, and the
      candidates are the score cut of the filtered products, reordered. */
  lemma CandidatesComplete(raws: seq<RawFragment>, category: string, tag: string)
    ensures multiset(Candidates(raws, category, tag))
      == multiset(ScoreAndCut(FilterProducts(MapProducts(raws, category, tag), RequirePrime)))
    ensures forall p :: (p in MapProducts(raws, category, tag) && PassesFilter(p, RequirePrime)
                         && ProductScore(p) >= MinProductScore) ==> WithScore(p) in Candidates(raws, category, tag)
  {
    var mapped := MapProducts(raws, category, tag);
    var cut := ScoreAndCut(FilterProducts(mapped, RequirePrime));
    var sorted := SortByScoreDesc(cut);
    forall p | p in mapped && PassesFilter(p, RequirePrime) && ProductScore(p) >= MinProductScore
      ensures WithScore(p) in sorted
    {
      assert WithScore(p) in multiset(cut);
    }
  }

  /** Candidates with equal scores keep extraction order: those with any one score are a
      subsequence of the scraped products, each carrying its score. */
  lemma CandidatesStable(raws: seq<RawFragment>, category: string, tag: string)
    ensures forall k :: SubsequenceOf(WithKey(Candidates(raws, category, tag), k),
                                      Map(MapProducts(raws, category, tag), WithScore))
  {
    var mapped := MapProducts(raws, category, tag);
    var filtered := FilterProducts(mapped, RequirePrime);
    var cut := ScoreAndCut(filtered);
    SubsequenceMap(filtered, mapped, WithScore);
    SubsequenceTrans(cut, Map(filtered, WithScore), Map(mapped, WithScore));
    forall k
      ensures SubsequenceOf(WithKey(Candidates(raws, category, tag), k), Map(mapped, WithScore))
    {
      WithKeyInOrder(cut, k);
      SubsequenceTrans(WithKey(cut, k), cut, Map(mapped, WithScore));
    }
  }

  // ---------------------------------------------------------------------------
  // Bounded availability checks
  // ---------------------------------------------------------------------------

  /** What the availability check of one product page does: it answers yes or no, or it throws
      (navigation timeout, closed page, failed evaluation). */
  datatype CheckOutcome = Available | Unavailable | CheckThrew

  /** `validateSingleProduct` and the loop's `catch`: only a yes counts; a throw is a no. */
  function ValidateSingleProduct(outcome: CheckOutcome): (ok: bool)
    ensures ok <==> outcome == Available
  {
    match outcome
    case Available => true
    case Unavailable => false
    case CheckThrew => false
  }

  /** The products whose check answers yes, in order. */
  function AvailableOf(ps: seq<Product>, answers: seq<CheckOutcome>): (r: seq<Product>)
    requires |answers| == |ps|
    ensures |r| <= |ps|
  {
    if ps == [] then []
    else
      AvailableOf(ps[..|ps| - 1], answers[..|ps| - 1])
      + if ValidateSingleProduct(answers[|ps| - 1]) then [ps[|ps| - 1]] else []
  }

  lemma {:induction false} AvailableOfPrefix(ps: seq<Product>, answers: seq<CheckOutcome>, j: nat)
    requires |answers| == |ps| && j <= |ps|
    ensures AvailableOf(ps[..j], answers[..j]) <= AvailableOf(ps, answers)
  {
    if j < |ps| {
      var n := |ps| - 1;
      assert ps[..n][..j] == ps[..j] && answers[..n][..j] == answers[..j];
      AvailableOfPrefix(ps[..n], answers[..n], j);
    } else {
      assert ps[..j] == ps && answers[..j] == answers;
    }
  }

  lemma AvailableOfElements(ps: seq<Product>, answers: seq<CheckOutcome>)
    requires |answers| == |ps|
    ensures forall q :: q in AvailableOf(ps, answers) ==> q in ps
  {
    if ps != [] {
      var n := |ps| - 1;
      AvailableOfElements(ps[..n], answers[..n]);
    }
  }

  /** The number of products looked at: `min(n, 12)`. */
  function ValidationBudget(n: nat): nat { if n < MaxValidations then n else MaxValidations }

  /** What the loop returns: the first (up to 8) products that answered yes among the first
      `min(n, 12)`. */
  function ExpectedValidated(ps: seq<Product>, answers: seq<CheckOutcome>): (r: seq<Product>)
    requires |answers| == |ps|
    ensures |r| <= TargetValidProducts
  {
    var m := ValidationBudget(|ps|);
    var found := AvailableOf(ps[..m], answers[..m]);
    if |found| <= TargetValidProducts then found else found[..TargetValidProducts]
  }

  /** The number of checks made on `answers`, having already found `found` valid products: the
      loop stops right after the check that brings the count to 8. */
  function ChecksMade(answers: seq<CheckOutcome>, found: nat): (n: nat)
    ensures n <= |answers|
  {
    if answers == [] then 0
    else
      var f := found + if ValidateSingleProduct(answers[0]) then 1 else 0;
      if f >= TargetValidProducts then 1 else 1 + ChecksMade(answers[1..], f)
  }

  /** One step of the validation loop as seen from outside: a page check or a pause. */
  datatype Step = Checked(index: nat) | Waited

  /** The schedule of `n` checks: check 0, pause, check 1, ..., pause, check n-1. */
  function Paced(n: nat): seq<Step> {
    if n == 0 then []
    else if n == 1 then [Checked(0)]
    else Paced(n - 1) + [Waited, Checked(n - 1)]
  }

  /** The schedule checks indices 0 to n-1 in order, pauses exactly between two checks, and never
      ends with a pause. */
  lemma {:induction false} PacedShape(n: nat)
    ensures n == 0 ==> Paced(n) == []
    ensures n > 0 ==> |Paced(n)| == 2 * n - 1 && Paced(n)[|Paced(n)| - 1] == Checked(n - 1)
    ensures forall k :: 0 <= k < n ==> Paced(n)[2 * k] == Checked(k)
    ensures forall k :: 0 <= k < n - 1 ==> Paced(n)[2 * k + 1] == Waited
  {
    if n > 1 {
      PacedShape(n - 1);
      var p := Paced(n - 1);
      assert forall k :: 0 <= k < |p| ==> Paced(n)[k] == p[k];
    }
  }

  lemma PacedStep(n: nat)
    ensures Paced(n + 1) == Paced(n) + (if n > 0 then [Waited] else []) + [Checked(n)]
  {
  }

  /** `validateProductsIntelligent`: checks products in order, at most 12 of them, keeps those that
      answer yes, stops at 8, and pauses only between two checks. `answers[i]` is what the check of
      `products[i]` would yield. */
  method ValidateProductsIntelligent(products: seq<Product>, answers: seq<CheckOutcome>)
    returns (valid: seq<Product>, trace: seq<Step>)
    requires |answers| == |products|
    ensures valid == ExpectedValidated(products, answers)
    ensures |valid| <= TargetValidProducts
    ensures var m := ValidationBudget(|products|);
            trace == Paced(ChecksMade(answers[..m], 0))
  {
    valid := [];
    trace := [];
    var maxToValidate := ValidationBudget(|products|);
    ghost var m := maxToValidate;
    var i := 0;
    while i < maxToValidate
      invariant 0 <= i <= m
      invariant valid == AvailableOf(products[..i], answers[..i])
      invariant |valid| < TargetValidProducts
      invariant TraceAt(trace, i, m)
      invariant ChecksSoFar(answers, m, i, |valid|)
    {
      LoopStep(products, answers, i, m);
      ChecksStep(answers, m, i, |valid|);
      TraceStep(trace, i, m);
      trace := trace + [Checked(i)];
      if ValidateSingleProduct(answers[i]) {
        valid := valid + [products[i]];
      }
      if |valid| >= TargetValidProducts {
        BreakAtTarget(products, answers, i + 1, valid);
        return;
      }
      if i < maxToValidate - 1 && |valid| < TargetValidProducts {
        trace := trace + [Waited];
      }
      i := i + 1;
    }
    ValidationExhausted(products, answers, valid, trace);
  }

  /** The trace after `i` of `m` checks: the schedule so far, and the pause that follows a check
      when another one comes. */
  predicate TraceAt(trace: seq<Step>, i: nat, m: nat) {
    trace == Paced(i) + if 0 < i < m then [Waited] else []
  }

  /** A check extends the schedule by one; the pause after it is due only when a check follows. */
  lemma TraceStep(trace: seq<Step>, i: nat, m: nat)
    requires i < m && TraceAt(trace, i, m)
    ensures trace + [Checked(i)] == Paced(i + 1)
    ensures i < m - 1 ==> TraceAt(trace + [Checked(i)] + [Waited], i + 1, m)
    ensures i == m - 1 ==> TraceAt(trace + [Checked(i)], i + 1, m)
  {
    PacedStep(i);
  }

  /** When the budget runs out before the target is reached, the loop has found what the
      specification expects and has checked every product of the budget. */
  lemma ValidationExhausted(products: seq<Product>, answers: seq<CheckOutcome>, valid: seq<Product>, trace: seq<Step>)
    requires |answers| == |products|
    requires var m := ValidationBudget(|products|);
      && valid == AvailableOf(products[..m], answers[..m]) && |valid| < TargetValidProducts
      && TraceAt(trace, m, m) && ChecksSoFar(answers, m, m, |valid|)
    ensures valid == ExpectedValidated(products, answers)
    ensures trace == Paced(ChecksMade(answers[..ValidationBudget(|products|)], 0))
  {
  }

  /** One iteration of the validation loop, on the specification side. */
  lemma LoopStep(products: seq<Product>, answers: seq<CheckOutcome>, i: nat, m: nat)
    requires |answers| == |products| && i < m <= |products|
    ensures AvailableOf(products[..i + 1], answers[..i + 1])
      == AvailableOf(products[..i], answers[..i]) + if ValidateSingleProduct(answers[i]) then [products[i]] else []
  {
    assert products[..i + 1][..i] == products[..i] && answers[..i + 1][..i] == answers[..i];
  }

  /** After `i` checks with `found` products valid, the loop makes `i` plus what is left checks. */
  predicate ChecksSoFar(answers: seq<CheckOutcome>, m: nat, i: nat, found: nat)
    requires i <= m <= |answers|
  {
    ChecksMade(answers[..m], 0) == i + ChecksMade(answers[i..m], found)
  }

  /** The count of checks across one iteration: either this check reaches the target and is the
      last, or the count carries over to the next index. */
  lemma ChecksStep(answers: seq<CheckOutcome>, m: nat, i: nat, found: nat)
    requires i < m <= |answers| && ChecksSoFar(answers, m, i, found)
    ensures var f := found + if ValidateSingleProduct(answers[i]) then 1 else 0;
      if f >= TargetValidProducts then ChecksMade(answers[..m], 0) == i + 1
      else ChecksSoFar(answers, m, i + 1, f)
  {
    assert answers[i..m][0] == answers[i] && answers[i..m][1..] == answers[i + 1..m];
  }

  /** Once the found products reach the target, they are the first 8 of those the full budget
      would find. */
  lemma BreakAtTarget(products: seq<Product>, answers: seq<CheckOutcome>, j: nat, valid: seq<Product>)
    requires |answers| == |products| && j <= ValidationBudget(|products|)
    requires valid == AvailableOf(products[..j], answers[..j]) && |valid| == TargetValidProducts
    ensures valid == ExpectedValidated(products, answers)
  {
    var m := ValidationBudget(|products|);
    AvailableOfPrefix(products[..m], answers[..m], j);
    assert products[..m][..j] == products[..j] && answers[..m][..j] == answers[..j];
    var found := AvailableOf(products[..m], answers[..m]);
    assert valid <= found;
    if |found| > TargetValidProducts {
      assert found[..TargetValidProducts] == valid;
    }
  }

  /** The number of yes answers. */
  function YesCount(answers: seq<CheckOutcome>): nat {
    if answers == [] then 0
    else YesCount(answers[..|answers| - 1]) + if ValidateSingleProduct(answers[|answers| - 1]) then 1 else 0
  }

  /** The loop never examines more than `min(n, 12)` products, and it stops early only once it has
      found 8 valid ones. */
  lemma {:induction false} ChecksMadeStopsOnlyAtTarget(answers: seq<CheckOutcome>, found: nat)
    requires found < TargetValidProducts
    ensures ChecksMade(answers, found) <= |answers|
    ensures ChecksMade(answers, found) < |answers| ==>
      found + YesCount(answers[..ChecksMade(answers, found)]) >= TargetValidProducts
  {
    if answers != [] {
      var f := found + if ValidateSingleProduct(answers[0]) then 1 else 0;
      var n := ChecksMade(answers, found);
      if f < TargetValidProducts {
        ChecksMadeStopsOnlyAtTarget(answers[1..], f);
        if n < |answers| {
          YesCountShift(answers, n);
        }
      } else {
        YesCountShift(answers, 1);
        assert answers[1..][..0] == [];
      }
    }
  }

  /** Counting the yes answers of a prefix: the first answer, then the rest. */
  lemma {:induction false} YesCountShift(answers: seq<CheckOutcome>, n: nat)
    requires 1 <= n <= |answers|
    ensures YesCount(answers[..n])
      == (if ValidateSingleProduct(answers[0]) then 1 else 0) + YesCount(answers[1..][..n - 1])
  {
    if n > 1 {
      YesCountShift(answers, n - 1);
      assert answers[..n][..n - 1] == answers[..n - 1];
      assert answers[1..][..n - 1][..n - 2] == answers[1..][..n - 2];
      assert answers[1..][..n - 1][n - 2] == answers[n - 1];
    } else {
      assert answers[..1][..0] == [];
      assert answers[1..][..0] == [];
    }
  }

  /** `scrapeGoldbox` after the page evaluation: map, filter, score, cut, sort; an empty candidate
      list returns [] without any check; otherwise the validation loop runs on the candidates. */
  method ScrapeGoldbox(raws: seq<RawFragment>, category: string, tag: string, answers: seq<CheckOutcome>)
    returns (validated: seq<Product>)
    requires |answers| == |Candidates(raws, category, tag)|
    ensures validated == ExpectedValidated(Candidates(raws, category, tag), answers)
    ensures |validated| <= TargetValidProducts
    ensures forall q :: q in validated ==> q in Candidates(raws, category, tag)
  {
    var sortedProducts := Candidates(raws, category, tag);
    if |sortedProducts| == 0 {
      return [];
    }
    var trace;
    validated, trace := ValidateProductsIntelligent(sortedProducts, answers);
    ValidatedAmong(sortedProducts, answers);
  }

  /** Every product the loop keeps is one of those it was given. */
  lemma ValidatedAmong(ps: seq<Product>, answers: seq<CheckOutcome>)
    requires |answers| == |ps|
    ensures forall q :: q in ExpectedValidated(ps, answers) ==> q in ps
  {
    var m := ValidationBudget(|ps|);
    AvailableOfElements(ps[..m], answers[..m]);
    var found := AvailableOf(ps[..m], answers[..m]);
    forall q | q in ExpectedValidated(ps, answers)
      ensures q in ps
    {
      assert q in found;
      assert q in ps[..m];
    }
  }
}
