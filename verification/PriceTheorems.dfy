/** What the declarative answer implies for callers of the accumulator. */
module PriceTheorems {
  import opened Options
  import opened PriceBook
  import opened PriceAccumulator

  // ---------------------------------------------------------------- the rows determine the book

  lemma SameLookups(a: map<Address, Candidate>, b: map<Address, Candidate>)
    requires forall k :: Lookup(a, k) == Lookup(b, k)
    ensures a == b
  {
    forall k
      ensures k in a <==> k in b
      ensures k in a ==> a[k] == b[k]
    {
      assert Lookup(a, k) == Lookup(b, k);
    }
  }

  /** Two accumulators that folded the same rows, in whatever batches, hold the same book. */
  lemma BatchingLeavesNoTrace(cfg: Config, rows: seq<Pair>, a: Book, b: Book)
    requires Answers(cfg, rows, a) && Answers(cfg, rows, b)
    ensures a == b
  {
    forall contest
      ensures WinnerOf(a, contest) == WinnerOf(b, contest)
    {
      WinnerUnique(Offers(cfg, contest, rows), WinnerOf(a, contest), WinnerOf(b, contest));
    }
    forall k ensures Lookup(a.candidates, k) == Lookup(b.candidates, k) {
      assert WinnerOf(a, ForAddress(k)) == WinnerOf(b, ForAddress(k));
    }
    SameLookups(a.candidates, b.candidates);
    assert WinnerOf(a, ForAnchor) == WinnerOf(b, ForAnchor) && WinnerOf(a, ForImplied) == WinnerOf(b, ForImplied);
  }

  // ---------------------------------------------------------------- order

  lemma {:induction false} CollectMembers(rows: seq<Pair>, give: Pair -> seq<Candidate>, c: Candidate)
    ensures c in Collect(rows, give) <==> exists r | r in rows :: c in give(r)
    decreases |rows|
  {
    if rows != [] {
      var front, last := rows[..|rows| - 1], rows[|rows| - 1];
      CollectMembers(front, give, c);
      assert rows == front + [last];
    }
  }

  lemma OfferMembers(cfg: Config, contest: Contest, rows: seq<Pair>, c: Candidate)
    ensures c in Offers(cfg, contest, rows) <==> exists r | r in rows :: c in Giving(cfg, contest)(r)
  {
    CollectMembers(rows, Giving(cfg, contest), c);
  }

  /** Two offers of one contest are equally deep only if they are the same offer. */
  ghost predicate NoTies(offers: seq<Candidate>) {
    forall c, d | c in offers && d in offers && c.liquidityUsd == d.liquidityUsd :: c == d
  }

  lemma WinnerWithoutTies(a: seq<Candidate>, b: seq<Candidate>, v: Option<Candidate>, w: Option<Candidate>)
    requires EarliestDeepest(a, v) && EarliestDeepest(b, w)
    requires NoTies(a) && forall c :: c in a <==> c in b
    ensures v == w
  {
    if a != [] {
      assert a[0] in a && a[0] in b;
    }
    if b != [] {
      assert b[0] in b && b[0] in a;
    }
    if v.Some? && w.Some? {
      assert v.value in a && w.value in b;
      assert v.value in b && w.value in a;
    }
  }

  /**
   Where no contest has a tie, neither the order nor the repetition of rows matters: the prices only
   depend on which rows were seen.
   */
  lemma OrderIrrelevantWithoutTies(cfg: Config, rows: seq<Pair>, shuffled: seq<Pair>, a: Book, b: Book)
    requires Answers(cfg, rows, a) && Answers(cfg, shuffled, b)
    requires forall r :: r in rows <==> r in shuffled
    requires forall contest :: NoTies(Offers(cfg, contest, rows))
    ensures forall key :: Resolve(cfg, a, key) == Resolve(cfg, b, key)
  {
    forall contest
      ensures WinnerOf(a, contest) == WinnerOf(b, contest)
    {
      forall c ensures c in Offers(cfg, contest, rows) <==> c in Offers(cfg, contest, shuffled) {
        OfferMembers(cfg, contest, rows, c);
        OfferMembers(cfg, contest, shuffled, c);
      }
      WinnerWithoutTies(Offers(cfg, contest, rows), Offers(cfg, contest, shuffled), WinnerOf(a, contest), WinnerOf(b, contest));
    }
    SameWinnersSamePrices(cfg, a, b);
  }

  lemma SameWinnersSamePrices(cfg: Config, a: Book, b: Book)
    requires forall contest :: WinnerOf(a, contest) == WinnerOf(b, contest)
    ensures forall key :: Resolve(cfg, a, key) == Resolve(cfg, b, key)
  {
    assert WinnerOf(a, ForAnchor) == WinnerOf(b, ForAnchor) && WinnerOf(a, ForImplied) == WinnerOf(b, ForImplied);
    forall key ensures Resolve(cfg, a, key) == Resolve(cfg, b, key) {
      assert WinnerOf(a, ForAddress(key)) == WinnerOf(b, ForAddress(key));
    }
  }

  // ---------------------------------------------------------------- rows that price nothing

  lemma {:induction false} CollectConcat(a: seq<Pair>, b: seq<Pair>, give: Pair -> seq<Candidate>)
    ensures Collect(a + b, give) == Collect(a, give) + Collect(b, give)
    decreases |b|
  {
    if b == [] {
      assert a + b == a;
    } else {
      var front, last := b[..|b| - 1], b[|b| - 1];
      CollectConcat(a, front, give);
      assert (a + b)[..|a + b| - 1] == a + front;
    }
  }

  /** A row that gives nothing can be taken out. */
  lemma CollectWithout(before: seq<Pair>, row: Pair, after: seq<Pair>, give: Pair -> seq<Candidate>)
    requires give(row) == []
    ensures Collect(before + [row] + after, give) == Collect(before + after, give)
  {
    CollectLast(before, row, give);
    CollectConcat(before + [row], after, give);
    CollectConcat(before, after, give);
  }

  /**
   A row of another chain, below the floor, or quoted in anything but a stable or the wrapped native
   changes no price, wherever it stands among the rows and however deep it claims to be.
   */
  lemma IneligibleRowPricesNothing(cfg: Config, before: seq<Pair>, row: Pair, after: seq<Pair>, with: Book, without: Book)
    requires !Eligible(cfg, row)
    requires Answers(cfg, before + [row] + after, with) && Answers(cfg, before + after, without)
    ensures forall key :: Resolve(cfg, with, key) == Resolve(cfg, without, key)
  {
    forall contest
      ensures WinnerOf(with, contest) == WinnerOf(without, contest)
    {
      CollectWithout(before, row, after, Giving(cfg, contest));
      assert EarliestDeepest(Offers(cfg, contest, before + [row] + after), WinnerOf(with, contest));
      WinnerUnique(Offers(cfg, contest, before + after), WinnerOf(with, contest), WinnerOf(without, contest));
    }
    SameWinnersSamePrices(cfg, with, without);
  }

  // ---------------------------------------------------------------- priced and unpriced

  lemma RowOfferIsUsable(cfg: Config, contest: Contest, row: Pair, c: Candidate)
    requires c in RowOffers(cfg, contest, row)
    ensures c.value >= 0.0 && c.liquidityUsd >= MIN_LIQUIDITY_USD
    ensures c.kind == InNative <==> c.basis == NativeQuoteMultiple
    ensures c.kind == InNative ==> c.tier == Native
    ensures contest.ForAddress? ==> contest.key in cfg.wanted
    ensures !contest.ForAddress? ==> c.kind == Usd
  {
    match contest
    case ForAddress(key) =>
      assert Some(c) == BaseOffer(cfg, row, key) || Some(c) == QuoteOffer(cfg, row, key);
    case ForAnchor => assert Some(c) == AnchorOffer(cfg, row);
    case ForImplied => assert Some(c) == ImpliedOffer(cfg, row);
  }

  lemma OfferIsUsable(cfg: Config, contest: Contest, rows: seq<Pair>, c: Candidate)
    requires c in Offers(cfg, contest, rows)
    ensures c.value >= 0.0 && c.liquidityUsd >= MIN_LIQUIDITY_USD
    ensures c.kind == InNative <==> c.basis == NativeQuoteMultiple
    ensures c.kind == InNative ==> c.tier == Native
    ensures contest.ForAddress? ==> contest.key in cfg.wanted
    ensures !contest.ForAddress? ==> c.kind == Usd
  {
    OfferMembers(cfg, contest, rows, c);
    var r :| r in rows && c in Giving(cfg, contest)(r);
    RowOfferIsUsable(cfg, contest, r, c);
  }

  lemma WinnerIsOffer(cfg: Config, contest: Contest, rows: seq<Pair>, book: Book)
    requires Answers(cfg, rows, book) && WinnerOf(book, contest).Some?
    ensures WinnerOf(book, contest).value in Offers(cfg, contest, rows)
  {
    assert EarliestDeepest(Offers(cfg, contest, rows), WinnerOf(book, contest));
  }

  lemma SourceIsUsable(cfg: Config, rows: seq<Pair>, book: Book)
    requires Answers(cfg, rows, book) && NativeSource(book).Some?
    ensures NativeSource(book).value.value >= 0.0
  {
    var contest := if book.anchor.Some? then ForAnchor else ForImplied;
    WinnerIsOffer(cfg, contest, rows, book);
    OfferIsUsable(cfg, contest, rows, NativeSource(book).value);
  }

  /** Some row prices the wrapped native. */
  ghost predicate NativePriced(cfg: Config, rows: seq<Pair>) {
    Offers(cfg, ForAnchor, rows) != [] || Offers(cfg, ForImplied, rows) != []
  }

  lemma SourceIffOffered(cfg: Config, rows: seq<Pair>, book: Book)
    requires Answers(cfg, rows, book)
    ensures NativeSource(book).Some? <==> NativePriced(cfg, rows)
  {
    assert EarliestDeepest(Offers(cfg, ForAnchor, rows), WinnerOf(book, ForAnchor));
    assert EarliestDeepest(Offers(cfg, ForImplied, rows), WinnerOf(book, ForImplied));
  }

  /** The address's deepest trusted pool has a price: in dollars, or in the native while the native has one. */
  ghost predicate DeepestPriced(cfg: Config, rows: seq<Pair>, key: Address) {
    exists w | EarliestDeepest(Offers(cfg, ForAddress(key), rows), Some(w)) :: w.kind == Usd || NativePriced(cfg, rows)
  }

  lemma DeepestIsWinner(cfg: Config, rows: seq<Pair>, book: Book, key: Address)
    requires Answers(cfg, rows, book)
    ensures var winner := Lookup(book.candidates, key);
            DeepestPriced(cfg, rows, key) <==> winner.Some? && (winner.value.kind == Usd || NativePriced(cfg, rows))
  {
    var offers, winner := Offers(cfg, ForAddress(key), rows), WinnerOf(book, ForAddress(key));
    assert EarliestDeepest(offers, winner);
    forall w | EarliestDeepest(offers, Some(w)) ensures winner == Some(w) {
      WinnerUnique(offers, winner, Some(w));
    }
  }

  lemma ResolvedExactly(cfg: Config, rows: seq<Pair>, book: Book, key: Address)
    requires Answers(cfg, rows, book)
    ensures Resolve(cfg, book, key).Some? <==>
            || (key == cfg.wrappedNative && key in cfg.wanted && NativeSource(book).Some?)
            || (key in book.candidates && (book.candidates[key].kind == Usd || NativeSource(book).Some?))
  {
    if key in book.candidates {
      WinnerIsOffer(cfg, ForAddress(key), rows, book);
      OfferIsUsable(cfg, ForAddress(key), rows, book.candidates[key]);
    }
    if NativeSource(book).Some? {
      SourceIsUsable(cfg, rows, book);
    }
  }

  /**
   Exactly which addresses the rows price: the wanted wrapped native whenever some row prices it, and any other
   address by its deepest trusted pool alone.
   */
  lemma PricedExactly(cfg: Config, rows: seq<Pair>, book: Book, key: Address)
    requires Answers(cfg, rows, book)
    ensures Resolve(cfg, book, key).Some? <==>
            || (key == cfg.wrappedNative && key in cfg.wanted && NativePriced(cfg, rows))
            || DeepestPriced(cfg, rows, key)
  {
    ResolvedExactly(cfg, rows, book, key);
    SourceIffOffered(cfg, rows, book);
    DeepestIsWinner(cfg, rows, book, key);
  }

  lemma OneRow(cfg: Config, contest: Contest, row: Pair)
    ensures Offers(cfg, contest, [row]) == RowOffers(cfg, contest, row)
  {
    assert [row] == [] + [row];
    CollectLast([], row, Giving(cfg, contest));
  }

  lemma TwoRows(cfg: Config, contest: Contest, first: Pair, second: Pair)
    ensures Offers(cfg, contest, [first, second]) == RowOffers(cfg, contest, first) + RowOffers(cfg, contest, second)
  {
    OneRow(cfg, contest, first);
    assert [first, second] == [first] + [second];
    CollectLast([first], second, Giving(cfg, contest));
  }

  /** Two pools of one token: a dollar price, and a deeper pool against a native that neither of them prices. */
  ghost predicate DeeperNative(cfg: Config, stable: Pair, native: Pair, key: Address) {
    && (exists c | RowOffers(cfg, ForAddress(key), stable) == [c] :: c.kind == Usd && c.liquidityUsd < Depth(native))
    && (exists c | RowOffers(cfg, ForAddress(key), native) == [c] :: c.kind == InNative && c.liquidityUsd == Depth(native))
    && RowOffers(cfg, ForAnchor, stable) == [] && RowOffers(cfg, ForAnchor, native) == []
    && RowOffers(cfg, ForImplied, stable) == [] && RowOffers(cfg, ForImplied, native) == []
  }

  /** The dollar pool alone prices the token; together with the deeper pool, in either order, nothing does. */
  lemma DeeperNativeUnprices(cfg: Config, stable: Pair, native: Pair, key: Address, alone: Book, both: Book, swapped: Book)
    requires DeeperNative(cfg, stable, native, key) && key != cfg.wrappedNative
    requires Answers(cfg, [stable], alone)
    requires Answers(cfg, [stable, native], both) && Answers(cfg, [native, stable], swapped)
    ensures Resolve(cfg, alone, key).Some?
    ensures Resolve(cfg, both, key).None? && Resolve(cfg, swapped, key).None?
  {
    var c :| RowOffers(cfg, ForAddress(key), stable) == [c] && c.kind == Usd && c.liquidityUsd < Depth(native);
    var d :| RowOffers(cfg, ForAddress(key), native) == [d] && d.kind == InNative && d.liquidityUsd == Depth(native);
    AlonePriced(cfg, stable, key, alone, c);
    assert [c] + [d] == [c, d] && [d] + [c] == [d, c];
    PairUnpriced(cfg, stable, native, key, both, c, d);
    PairUnpriced(cfg, native, stable, key, swapped, c, d);
  }

  lemma AlonePriced(cfg: Config, row: Pair, key: Address, book: Book, c: Candidate)
    requires Answers(cfg, [row], book) && RowOffers(cfg, ForAddress(key), row) == [c] && c.kind == Usd
    ensures Resolve(cfg, book, key).Some?
  {
    OneRow(cfg, ForAddress(key), row);
    PricedExactly(cfg, [row], book, key);
    assert [c][0] == c && EarliestDeepest([c], Some(c));
  }

  lemma PairUnpriced(cfg: Config, first: Pair, second: Pair, key: Address, book: Book, c: Candidate, d: Candidate)
    requires Answers(cfg, [first, second], book) && key != cfg.wrappedNative
    requires c.liquidityUsd < d.liquidityUsd && d.kind == InNative
    requires var offers := RowOffers(cfg, ForAddress(key), first) + RowOffers(cfg, ForAddress(key), second);
             offers == [c, d] || offers == [d, c]
    requires RowOffers(cfg, ForAnchor, first) == RowOffers(cfg, ForAnchor, second) == []
    requires RowOffers(cfg, ForImplied, first) == RowOffers(cfg, ForImplied, second) == []
    ensures Resolve(cfg, book, key).None?
  {
    TwoRows(cfg, ForAddress(key), first, second);
    TwoRows(cfg, ForAnchor, first, second);
    TwoRows(cfg, ForImplied, first, second);
    var offers := Offers(cfg, ForAddress(key), [first, second]);
    forall w | EarliestDeepest(offers, Some(w)) ensures w == d {
      assert offers[0] == d || offers[1] == d;
    }
    PricedExactly(cfg, [first, second], book, key);
  }

  /** Two such rows, spelled out. */
  lemma DeeperNativeRows(cfg: Config, stable: Pair, native: Pair)
    requires cfg == Config(a => a, c => c, {"token"}, {"usdc"}, "weth", "base")
    requires stable == Pair(Some("base"), Some(2000.0), Some("token"), Some("usdc"), None, Some(1.0), None, "p")
    requires native == Pair(Some("base"), Some(3000.0), Some("token"), Some("weth"), None, None, Some(0.5), "q")
    ensures DeeperNative(cfg, stable, native, "token")
  {
    assert RowOffers(cfg, ForAddress("token"), stable) == [UsdOffer(stable, StableQuotePriceUsd, Stable, 1.0)];
    assert RowOffers(cfg, ForAddress("token"), native)
        == [Candidate(Native, NativeQuoteMultiple, 3000.0, InNative, 0.5, "q", None)];
  }

  /** Only wanted addresses are ever priced. */
  lemma PricedAreWanted(cfg: Config, rows: seq<Pair>, book: Book, key: Address)
    requires Answers(cfg, rows, book) && Resolve(cfg, book, key).Some?
    ensures key in cfg.wanted
  {
    if key in book.candidates {
      WinnerIsOffer(cfg, ForAddress(key), rows, book);
      OfferIsUsable(cfg, ForAddress(key), rows, book.candidates[key]);
    }
  }

  lemma {:induction false} ThinMembers(cfg: Config, rows: seq<Pair>, key: Address)
    ensures key in Thin(cfg, rows) <==> exists r | r in rows :: key in ThinSides(cfg, r)
    decreases |rows|
  {
    if rows != [] {
      ThinMembers(cfg, rows[..|rows| - 1], key);
      assert rows == rows[..|rows| - 1] + [rows[|rows| - 1]];
    }
  }

  /**
   The reason given for an unpriced address says what is true of the rows: offers exist but only the
   native prices the deepest one; or no offer, and a thin trusted pool was seen; or neither.
   */
  lemma ReasonsAreTrue(cfg: Config, rows: seq<Pair>, book: Book, key: Address)
    requires Answers(cfg, rows, book) && key in cfg.wanted && Resolve(cfg, book, key).None?
    ensures var offers := Offers(cfg, ForAddress(key), rows);
            match ReasonOf(cfg, book, key)
            case NoNativePrice =>
              && offers != [] && book.candidates[key].basis == NativeQuoteMultiple
              && Offers(cfg, ForAnchor, rows) == [] && Offers(cfg, ForImplied, rows) == []
            case BelowLiquidityFloor => offers == [] && exists r | r in rows :: key in ThinSides(cfg, r)
            case NoTrustedPool => offers == [] && !exists r | r in rows :: key in ThinSides(cfg, r)
  {
    ResolvedExactly(cfg, rows, book, key);
    ThinMembers(cfg, rows, key);
    assert EarliestDeepest(Offers(cfg, ForAddress(key), rows), WinnerOf(book, ForAddress(key)));
    assert EarliestDeepest(Offers(cfg, ForAnchor, rows), WinnerOf(book, ForAnchor));
    assert EarliestDeepest(Offers(cfg, ForImplied, rows), WinnerOf(book, ForImplied));
    if key in book.candidates {
      WinnerIsOffer(cfg, ForAddress(key), rows, book);
      OfferIsUsable(cfg, ForAddress(key), rows, book.candidates[key]);
    }
  }

  /**
   Self-consistency: every price that is a native multiple was multiplied by one and the same native
   price, and where the wrapped native is itself wanted that is the price it is shown at.
   */
  lemma NativeMultiplesAgree(cfg: Config, rows: seq<Pair>, book: Book, key: Address)
    requires Answers(cfg, rows, book)
    requires Resolve(cfg, book, key).Some? && Resolve(cfg, book, key).value.decision.basis == NativeQuoteMultiple
    ensures NativeUsd(book).Some? && key in book.candidates
    ensures Resolve(cfg, book, key).value.price == book.candidates[key].value * NativeUsd(book).value
    ensures cfg.wrappedNative in cfg.wanted ==>
              && Resolve(cfg, book, cfg.wrappedNative).Some?
              && Resolve(cfg, book, cfg.wrappedNative).value.price == NativeUsd(book).value
  {
    WinnerIsOffer(cfg, ForAddress(key), rows, book);
    OfferIsUsable(cfg, ForAddress(key), rows, book.candidates[key]);
  }
}
