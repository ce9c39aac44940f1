/** Sending a round of deals to the WhatsApp group: the Fisher–Yates shuffle and the paced send loop
    of the bot, which remembers the links it has sent. */
module Delivery {
  import opened Wrappers
  import opened Offers
  import opened Sequences

  /** At most this many products are sent per round. */
  const MaxPerRound: nat := 5

  function Min(a: nat, b: nat): nat { if a <= b then a else b }

  // ---------------------------------------------------------------------------
  // shuffleArray
  // ---------------------------------------------------------------------------

  /** `s` with the elements at `i` and `j` exchanged. */
  function Swap<T>(s: seq<T>, i: nat, j: nat): (r: seq<T>)
    requires i < |s| && j < |s|
    ensures |r| == |s| && r[i] == s[j] && r[j] == s[i]
    ensures forall k :: 0 <= k < |s| && k != i && k != j ==> r[k] == s[k]
  {
    s[i := s[j]][j := s[i]]
  }

  /** A swap keeps every element. */
  lemma SwapPermutes<T>(s: seq<T>, i: nat, j: nat)
    requires i < |s| && j < |s|
    ensures multiset(Swap(s, i, j)) == multiset(s)
  {
  }

  /** The index swapped with `i` at that step, `Math.floor(Math.random() * (i + 1))`: the injected
      draw `rand(i)` reduced into [0, i]. */
  function PickIndex(rand: nat -> nat, i: nat): (j: nat)
    ensures j <= i
  {
    rand(i) % (i + 1)
  }

  /** The steps of the shuffle from index `i` down to 1. */
  function ShuffleDown<T>(s: seq<T>, i: nat, rand: nat -> nat): (r: seq<T>)
    requires i < |s|
    ensures |r| == |s|
    decreases i
  {
    if i == 0 then s else ShuffleDown(Swap(s, i, PickIndex(rand, i)), i - 1, rand)
  }

  lemma {:induction false} ShuffleDownPermutes<T>(s: seq<T>, i: nat, rand: nat -> nat)
    requires i < |s|
    ensures multiset(ShuffleDown(s, i, rand)) == multiset(s)
    decreases i
  {
    if i > 0 {
      var t := Swap(s, i, PickIndex(rand, i));
      SwapPermutes(s, i, PickIndex(rand, i));
      ShuffleDownPermutes(t, i - 1, rand);
    }
  }

  /** What `shuffleArray` returns for the draws `rand`. */
  function Shuffled<T>(s: seq<T>, rand: nat -> nat): (r: seq<T>)
    ensures |r| == |s|
  {
    if |s| <= 1 then s else ShuffleDown(s, |s| - 1, rand)
  }

  /** Whatever the draws, the shuffle is a permutation of its input. */
  lemma ShuffledPermutes<T>(s: seq<T>, rand: nat -> nat)
    ensures multiset(Shuffled(s, rand)) == multiset(s)
  {
    if |s| > 1 {
      ShuffleDownPermutes(s, |s| - 1, rand);
    }
  }

  /** `AntiBanHelper.shuffleArray`: Fisher–Yates over a copy of the input, which stays as it was. */
  method ShuffleArray<T>(a: seq<T>, rand: nat -> nat) returns (shuffled: seq<T>)
    ensures shuffled == Shuffled(a, rand)
    ensures |shuffled| == |a| && multiset(shuffled) == multiset(a)
  {
    if |a| == 0 {
      return [];
    }
    var copy := new T[|a|](k requires 0 <= k < |a| => a[k]);
    assert copy[..] == a;
    var i := |a| - 1;
    while i > 0
      invariant 0 <= i < copy.Length == |a|
      invariant ShuffleDown(copy[..], i, rand) == Shuffled(a, rand)
    {
      var j := PickIndex(rand, i);
      ghost var before := copy[..];
      copy[i], copy[j] := copy[j], copy[i];
      assert copy[..] == Swap(before, i, j);
      i := i - 1;
    }
    shuffled := copy[..];
    ShuffledPermutes(a, rand);
  }

  // ---------------------------------------------------------------------------
  // The bot
  // ---------------------------------------------------------------------------

  /** What the connection check reports: connected, not connected, or the check itself threw. */
  datatype Connection = Connected | Disconnected | CheckThrew

  /** One outward step of a round: a send with an image (when the product has one), a text-only
      send, or the pause between two sends. */
  datatype Action = ImageSent(link: string, imageUrl: string) | TextSent(link: string) | Paused

  /** How a round ends: every send went out, nothing was new, the connection check failed or
      reported disconnected, or the send of the product at `index` threw. */
  datatype SendOutcome =
    | Delivered(count: nat)
    | NothingNew
    | NotConnected
    | ConnectionCheckFailed
    | SendFailed(index: nat)

  /** A product whose link this client has not sent yet. */
  predicate NotSent(sent: set<string>, p: Product) { p.link !in sent }

  /** `products.filter(p => !this.sentLinks.has(p.link))`: the products whose link was not sent.
      `UnsentExact` adds that each is kept as often as it occurs, in the order given. */
  function Unsent(products: seq<Product>, sent: set<string>): (r: seq<Product>)
    ensures |r| <= |products|
    ensures forall p :: p in r ==> p in products && p.link !in sent
    ensures forall p :: p in products && p.link !in sent ==> p in r
  {
    Filter(products, (p: Product) => NotSent(sent, p))
  }

  /** The unsent products keep their multiplicity and their order. */
  lemma UnsentExact(products: seq<Product>, sent: set<string>)
    ensures forall p: Product :: p.link !in sent ==> multiset(Unsent(products, sent))[p] == multiset(products)[p]
    ensures SubsequenceOf(Unsent(products, sent), products)
  {
    var keep := (p: Product) => NotSent(sent, p);
    FilterCounts(products, keep);
    FilterInOrder(products, keep);
  }

  /** The products a round sends, in order: the first five of the shuffled unsent ones. */
  function Batch(products: seq<Product>, sent: set<string>, rand: nat -> nat): (r: seq<Product>)
    ensures |r| == Min(|Unsent(products, sent)|, MaxPerRound)
    ensures forall p :: p in r ==> p in products && p.link !in sent
  {
    var shuffled := Shuffled(Unsent(products, sent), rand);
    ShuffledPermutes(Unsent(products, sent), rand);
    var top := if |shuffled| <= MaxPerRound then shuffled else shuffled[..MaxPerRound];
    assert forall p :: p in top ==> p in multiset(shuffled);
    top
  }

  /** The send made for one product. */
  function Attempt(p: Product): Action {
    if p.imageUrl.Some? && p.imageUrl.value != "" then ImageSent(p.link, p.imageUrl.value) else TextSent(p.link)
  }

  /** The sends of `bs` in order with one pause between two consecutive sends. */
  function Schedule(bs: seq<Product>): seq<Action> {
    if |bs| == 0 then []
    else if |bs| == 1 then [Attempt(bs[0])]
    else Schedule(bs[..|bs| - 1]) + [Paused, Attempt(bs[|bs| - 1])]
  }

  /** The first send, among `n`, that `ok` says throws; `n` when none does. */
  function FirstFailure(ok: nat -> bool, n: nat): (f: nat)
    ensures f <= n
    ensures forall i :: 0 <= i < f ==> ok(i)
    ensures f < n ==> !ok(f)
  {
    if n == 0 then 0
    else if FirstFailure(ok, n - 1) < n - 1 then FirstFailure(ok, n - 1)
    else if ok(n - 1) then n
    else n - 1
  }

  function LinksOf(bs: seq<Product>): set<string> {
    set p | p in bs :: p.link
  }

  /** `AmazonDealsBot`: `sentLinks` holds every link sent since the last clearing. */
  class AmazonDealsBot {
    var sentLinks: set<string>

    constructor()
      ensures sentLinks == {}
    {
      sentLinks := {};
    }

    /** `sendDealsToGroup`: checks the connection, drops the products whose link was already sent,
        shuffles the rest with the draws `rand`, and sends the first five one by one, pausing between
        two sends. `sendOk(i)` says whether the i-th send returns; a send that throws ends the round
        with the error, and a link is recorded only once its send has returned. */
    method SendDealsToGroup(products: seq<Product>, connection: Connection, rand: nat -> nat, sendOk: nat -> bool)
      returns (outcome: SendOutcome, trace: seq<Action>)
      modifies this
      ensures connection == CheckThrew ==>
        outcome == ConnectionCheckFailed && trace == [] && sentLinks == old(sentLinks)
      ensures connection == Disconnected ==>
        outcome == NotConnected && trace == [] && sentLinks == old(sentLinks)
      ensures connection == Connected && Batch(products, old(sentLinks), rand) == [] ==>
        outcome == NothingNew && trace == [] && sentLinks == old(sentLinks)
      ensures connection == Connected ==>
        var batch := Batch(products, old(sentLinks), rand);
        var f := FirstFailure(sendOk, |batch|);
        batch != [] && f == |batch| ==>
          outcome == Delivered(|batch|) && trace == Schedule(batch) && sentLinks == old(sentLinks) + LinksOf(batch)
      ensures connection == Connected ==>
        var batch := Batch(products, old(sentLinks), rand);
        var f := FirstFailure(sendOk, |batch|);
        f < |batch| ==>
          && outcome == SendFailed(f)
          && trace == Schedule(batch[..f + 1])
          && sentLinks == old(sentLinks) + LinksOf(batch[..f])
    {
      if connection == CheckThrew {
        return ConnectionCheckFailed, [];
      }
      if connection == Disconnected {
        return NotConnected, [];
      }
      var newProducts := Unsent(products, sentLinks);
      if |newProducts| == 0 {
        return NothingNew, [];
      }
      var shuffledProducts := ShuffleArray(newProducts, rand);
      var topProducts := if |shuffledProducts| <= MaxPerRound then shuffledProducts else shuffledProducts[..MaxPerRound];
      assert topProducts == Batch(products, old(sentLinks), rand);
      outcome, trace := SendEach(topProducts, sendOk);
    }

    /** The send loop of `sendDealsToGroup` over the products chosen for the round. */
    method SendEach(topProducts: seq<Product>, sendOk: nat -> bool) returns (outcome: SendOutcome, trace: seq<Action>)
      requires topProducts != []
      modifies this
      ensures var f := FirstFailure(sendOk, |topProducts|);
        f == |topProducts| ==>
          outcome == Delivered(|topProducts|) && trace == Schedule(topProducts)
          && sentLinks == old(sentLinks) + LinksOf(topProducts)
      ensures var f := FirstFailure(sendOk, |topProducts|);
        f < |topProducts| ==>
          && outcome == SendFailed(f)
          && trace == Schedule(topProducts[..f + 1])
          && sentLinks == old(sentLinks) + LinksOf(topProducts[..f])
    {
      trace := [];
      var i := 0;
      while i < |topProducts|
        invariant 0 <= i <= |topProducts|
        invariant forall k :: 0 <= k < i ==> sendOk(k)
        invariant sentLinks == old(sentLinks) + LinksOf(topProducts[..i])
        invariant trace == Schedule(topProducts[..i]) + if 0 < i < |topProducts| then [Paused] else []
      {
        var product := topProducts[i];
        ScheduleStep(topProducts, i);
        trace := trace + [Attempt(product)];
        if !sendOk(i) {
          FirstFailureAt(sendOk, |topProducts|, i);
          return SendFailed(i), trace;
        }
        LinksStep(topProducts, i);
        sentLinks := sentLinks + {product.link};
        if i < |topProducts| - 1 {
          trace := trace + [Paused];
        }
        i := i + 1;
      }
      FirstFailureAt(sendOk, |topProducts|, i);
      assert topProducts[..i] == topProducts;
      outcome := Delivered(|topProducts|);
    }

    /** `clearSentLinks`: forgets every sent link. */
    method ClearSentLinks()
      modifies this
      ensures sentLinks == {}
    {
      sentLinks := {};
    }
  }

  /** One more send in the schedule: a pause first unless it is the first send. */
  lemma ScheduleStep(bs: seq<Product>, i: nat)
    requires i < |bs|
    ensures Schedule(bs[..i + 1]) == Schedule(bs[..i]) + (if i > 0 then [Paused] else []) + [Attempt(bs[i])]
  {
    assert bs[..i + 1][..i] == bs[..i];
  }

  lemma LinksStep(bs: seq<Product>, i: nat)
    requires i < |bs|
    ensures LinksOf(bs[..i + 1]) == LinksOf(bs[..i]) + {bs[i].link}
  {
    assert bs[..i + 1] == bs[..i] + [bs[i]];
  }

  /** The first failure is the first index whose send throws. */
  lemma FirstFailureAt(ok: nat -> bool, n: nat, i: nat)
    requires i <= n
    requires forall k :: 0 <= k < i ==> ok(k)
    requires i < n ==> !ok(i)
    ensures FirstFailure(ok, n) == i
  {
  }

  /** The schedule sends the products in order, pauses exactly between two sends and ends with a
      send. */
  lemma {:induction false} ScheduleShape(bs: seq<Product>)
    ensures bs == [] ==> Schedule(bs) == []
    ensures bs != [] ==> |Schedule(bs)| == 2 * |bs| - 1 && Schedule(bs)[|Schedule(bs)| - 1] != Paused
    ensures forall k :: 0 <= k < |bs| ==> Schedule(bs)[2 * k] == Attempt(bs[k])
    ensures forall k :: 0 <= k < |bs| - 1 ==> Schedule(bs)[2 * k + 1] == Paused
  {
    if |bs| > 1 {
      var front := bs[..|bs| - 1];
      ScheduleShape(front);
      var p := Schedule(front);
      assert forall k :: 0 <= k < |p| ==> Schedule(bs)[k] == p[k];
      assert forall k :: 0 <= k < |front| ==> front[k] == bs[k];
    }
  }

  /** No send of a round goes to a link that was already sent when the round began, and a round
      sends at most five products. */
  lemma NeverResends(products: seq<Product>, sent: set<string>, rand: nat -> nat, n: nat)
    requires n <= |Batch(products, sent, rand)|
    ensures n <= MaxPerRound
    ensures var t := Schedule(Batch(products, sent, rand)[..n]);
      forall k :: 0 <= k < |t| && t[k] != Paused ==> t[k].link !in sent
  {
    var batch := Batch(products, sent, rand);
    var bs := batch[..n];
    assert forall i :: 0 <= i < |bs| ==> bs[i].link !in sent by {
      forall i | 0 <= i < |bs|
        ensures bs[i].link !in sent
      {
        assert bs[i] == batch[i];
        assert batch[i] in batch;
      }
    }
    ScheduleShape(bs);
    var t := Schedule(bs);
    forall k | 0 <= k < |t| && t[k] != Paused
      ensures t[k].link !in sent
    {
      var m := k / 2;
      assert k == 2 * m || k == 2 * m + 1;
      assert t[k] == Attempt(bs[m]);
    }
  }

  /** A round finds nothing to send exactly when every product's link was already sent. */
  lemma UnsentEmptyIff(products: seq<Product>, sent: set<string>)
    ensures Unsent(products, sent) == [] <==> forall p :: p in products ==> p.link in sent
  {
    var u := Unsent(products, sent);
    if u != [] {
      assert u[0] in u;
    }
  }

  /** Two products with the same link in one batch are both sent: the links of a batch are not
      checked against each other. */
  lemma DuplicatesNotFiltered(p: Product, sent: set<string>, rand: nat -> nat)
    requires p.link !in sent
    ensures Batch([p, p], sent, rand) == [p, p]
  {
    var u := Unsent([p, p], sent);
    FilterAll([p, p], (q: Product) => NotSent(sent, q));
    assert u == [p, p];
    var s := Shuffled(u, rand);
    ShuffledPermutes(u, rand);
    assert s[0] in multiset(s) && s[1] in multiset(s);
  }
}
