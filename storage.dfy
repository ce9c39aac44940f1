/** The offers archive: an append-only list of offers, de-duplicated by ASIN when a batch is saved. */
module Storage {
  import opened Wrappers
  import opened Offers
  import opened Sequences

  /** The `asin` values of a list of offers, null ones included. */
  function AsinsOf(ps: seq<Product>): set<Option<string>> {
    set p | p in ps :: p.asin
  }

  /** The offers of `batch` that the save appends when the ASINs in `seen` are already taken: an offer
      is accepted when its ASIN is set and not yet taken, and from then on its ASIN is taken. */
  function UniqueNew(seen: set<Option<string>>, batch: seq<Product>): (r: seq<Product>)
    ensures |r| <= |batch|
    decreases |batch|
  {
    if batch == [] then []
    else if HasAsin(batch[0]) && batch[0].asin !in seen then
      [batch[0]] + UniqueNew(seen + {batch[0].asin}, batch[1..])
    else UniqueNew(seen, batch[1..])
  }

  /** The merge inside `saveOffers`: the existing list, unchanged, followed by the batch's offers
      whose ASIN is set, not already stored and not taken by an earlier offer of the batch. */
  method MergeOffers(existingOffers: seq<Product>, newOffers: seq<Product>) returns (updatedOffers: seq<Product>)
    ensures updatedOffers == existingOffers + UniqueNew(AsinsOf(existingOffers), newOffers)
  {
    var existingAsins := set o | o in existingOffers :: o.asin;
    var uniqueNewOffers := [];
    var i := 0;
    while i < |newOffers|
      invariant 0 <= i <= |newOffers|
      invariant uniqueNewOffers + UniqueNew(existingAsins, newOffers[i..])
        == UniqueNew(AsinsOf(existingOffers), newOffers)
    {
      var offer := newOffers[i];
      assert newOffers[i..][0] == offer && newOffers[i..][1..] == newOffers[i + 1..];
      if HasAsin(offer) && offer.asin !in existingAsins {
        existingAsins := existingAsins + {offer.asin};
        uniqueNewOffers := uniqueNewOffers + [offer];
      }
      i := i + 1;
    }
    updatedOffers := existingOffers + uniqueNewOffers;
  }

  /** What reading and parsing the archive file yields: nothing usable (the file is missing, empty,
      unreadable or not JSON, which the save treats as an empty list), a JSON value that is not a
      list (on which the save throws before writing), or a list of offers. */
  datatype Archive = Unreadable | NotAList | Stored(list: seq<Product>)

  /** How the write of the merged list ends: it succeeds, it fails before the file is opened for
      writing, or it fails after the file was truncated, leaving it empty or holding a prefix of
      the text, which no longer parses. */
  datatype WriteResult = Written | FailedBeforeTruncating | FailedAfterTruncating

  /** The list the save starts from. */
  function ExistingOffers(archive: Archive): seq<Product> {
    if archive.Stored? then archive.list else []
  }

  /** `saveOffers` against the archive file: `archive` is what the file holds before and `write`
      how the write ends; the result is what the file holds after. Every failure is caught and
      logged, never reported to the caller. */
  method SaveOffers(archive: Archive, newOffers: seq<Product>, write: WriteResult) returns (after: Archive)
    ensures archive == NotAList ==> after == NotAList
    ensures archive != NotAList && write == Written ==>
      after == Stored(ExistingOffers(archive) + UniqueNew(AsinsOf(ExistingOffers(archive)), newOffers))
    ensures archive != NotAList && write == FailedBeforeTruncating ==> after == archive
    ensures archive != NotAList && write == FailedAfterTruncating ==> after == Unreadable
  {
    if archive == NotAList {
      return archive;
    }
    var updatedOffers := MergeOffers(ExistingOffers(archive), newOffers);
    match write
    case Written => after := Stored(updatedOffers);
    case FailedBeforeTruncating => after := archive;
    case FailedAfterTruncating => after := Unreadable;
  }

  /** Every appended offer comes from the batch, has an ASIN, and its ASIN was not taken. */
  lemma {:induction false} UniqueNewAccepted(seen: set<Option<string>>, batch: seq<Product>)
    ensures forall q :: q in UniqueNew(seen, batch) ==> q in batch && HasAsin(q) && q.asin !in seen
    decreases |batch|
  {
    if batch != [] {
      if HasAsin(batch[0]) && batch[0].asin !in seen {
        UniqueNewAccepted(seen + {batch[0].asin}, batch[1..]);
      } else {
        UniqueNewAccepted(seen, batch[1..]);
      }
    }
  }

  /** No two offers of `s` share an ASIN. */
  predicate DistinctAsins(s: seq<Product>) {
    forall i, j :: 0 <= i < j < |s| ==> s[i].asin != s[j].asin
  }

  /** No two appended offers share an ASIN: only the first offer of the batch with an ASIN is kept. */
  lemma {:induction false} UniqueNewDistinct(seen: set<Option<string>>, batch: seq<Product>)
    ensures DistinctAsins(UniqueNew(seen, batch))
    decreases |batch|
  {
    if batch != [] {
      if HasAsin(batch[0]) && batch[0].asin !in seen {
        var seen' := seen + {batch[0].asin};
        UniqueNewDistinct(seen', batch[1..]);
        UniqueNewAccepted(seen', batch[1..]);
        var rest := UniqueNew(seen', batch[1..]);
        var r := [batch[0]] + rest;
        forall i, j | 0 <= i < j < |r|
          ensures r[i].asin != r[j].asin
        {
          assert r[j] == rest[j - 1];
          if i > 0 {
            assert r[i] == rest[i - 1];
          } else {
            assert rest[j - 1] in rest;
          }
        }
        assert UniqueNew(seen, batch) == r;
      } else {
        UniqueNewDistinct(seen, batch[1..]);
      }
    }
  }

  /** The offer of the batch that first carries an untaken ASIN is the one appended. */
  lemma {:induction false} UniqueNewKeepsFirst(seen: set<Option<string>>, batch: seq<Product>, k: nat)
    requires k < |batch| && HasAsin(batch[k]) && batch[k].asin !in seen
    requires forall i :: 0 <= i < k ==> batch[i].asin != batch[k].asin
    ensures batch[k] in UniqueNew(seen, batch)
    decreases |batch|
  {
    if k > 0 {
      var seen' := if HasAsin(batch[0]) && batch[0].asin !in seen then seen + {batch[0].asin} else seen;
      UniqueNewKeepsFirst(seen', batch[1..], k - 1);
    }
  }

  /** The appended offers keep the relative order they had in the batch. */
  lemma {:induction false} UniqueNewInOrder(seen: set<Option<string>>, batch: seq<Product>)
    ensures SubsequenceOf(UniqueNew(seen, batch), batch)
    decreases |batch|
  {
    if batch != [] {
      if HasAsin(batch[0]) && batch[0].asin !in seen {
        UniqueNewInOrder(seen + {batch[0].asin}, batch[1..]);
        var r := UniqueNew(seen, batch);
        assert r[0] == batch[0] && r[1..] == UniqueNew(seen + {batch[0].asin}, batch[1..]);
      } else {
        UniqueNewInOrder(seen, batch[1..]);
      }
    }
  }

  /** After a save, every offer of the batch that has an ASIN finds it taken: either stored before
      or appended now. */
  lemma {:induction false} UniqueNewCovers(seen: set<Option<string>>, batch: seq<Product>)
    ensures forall q :: q in batch && HasAsin(q) ==> q.asin in seen + AsinsOf(UniqueNew(seen, batch))
    decreases |batch|
  {
    if batch != [] {
      var b := batch[0];
      if HasAsin(b) && b.asin !in seen {
        var seen' := seen + {b.asin};
        UniqueNewCovers(seen', batch[1..]);
        var rest := UniqueNew(seen', batch[1..]);
        assert UniqueNew(seen, batch) == [b] + rest;
        assert AsinsOf([b] + rest) == {b.asin} + AsinsOf(rest);
      } else {
        UniqueNewCovers(seen, batch[1..]);
      }
    }
  }

  /** A batch whose ASINs are all taken appends nothing. */
  lemma {:induction false} UniqueNewAllTaken(seen: set<Option<string>>, batch: seq<Product>)
    requires forall q :: q in batch && HasAsin(q) ==> q.asin in seen
    ensures UniqueNew(seen, batch) == []
    decreases |batch|
  {
    if batch != [] {
      assert batch[0] in batch;
      UniqueNewAllTaken(seen, batch[1..]);
    }
  }

  /** Saving the same batch a second time appends nothing. */
  lemma SaveTwiceAppendsNothing(existing: seq<Product>, batch: seq<Product>)
    ensures var once := existing + UniqueNew(AsinsOf(existing), batch);
      UniqueNew(AsinsOf(once), batch) == []
  {
    var added := UniqueNew(AsinsOf(existing), batch);
    var once := existing + added;
    UniqueNewCovers(AsinsOf(existing), batch);
    assert AsinsOf(once) == AsinsOf(existing) + AsinsOf(added);
    UniqueNewAllTaken(AsinsOf(once), batch);
  }
}
