/** What the offers and prices of the accumulator mean, read off the fields of the rows. */
module PriceMeaning {
  import opened Options
  import opened PriceBook
  import opened PriceAccumulator
  import opened PriceTheorems

  /** A row of the chain with at least a thousand dollars in it, and who is quoted in whom. */
  predicate Pool(cfg: Config, row: Pair, base: Option<Address>, quote: Address) {
    && row.chainId.Some? && cfg.foldCase(row.chainId.value) == cfg.expectedChain
    && row.liquidityUsd.Some? && row.liquidityUsd.value >= 1000.0
    && row.quote.Some? && quote == cfg.normalize(row.quote.value)
    && base == (if row.base.Some? then Some(cfg.normalize(row.base.value)) else None)
  }

  /** One base is worth priceUsd dollars. */
  predicate InDollars(row: Pair, c: Candidate) {
    c.kind == Usd && row.priceUsd == Some(c.value) && c.value >= 0.0
  }

  /** The base costs priceUsd dollars and priceNative quotes, so that one quote is worth value dollars. */
  predicate QuoteWorth(row: Pair, value: real) {
    && value >= 0.0 && row.priceUsd.Some? && row.priceNative.Some? && row.priceNative.value > 0.0
    && value * row.priceNative.value == row.priceUsd.value
  }

  predicate QuoteInDollars(row: Pair, c: Candidate) {
    c.kind == Usd && c.basis == StableQuoteInverted && QuoteWorth(row, c.value)
  }

  /** One base is worth priceNative of the wrapped native. */
  predicate InNatives(row: Pair, c: Candidate) {
    c.kind == InNative && c.basis == NativeQuoteMultiple && row.priceNative == Some(c.value) && c.value > 0.0
  }

  /** What a candidate says about its row in every contest: the pool, its depth and its class. */
  predicate Carries(cfg: Config, row: Pair, base: Option<Address>, quote: Address, c: Candidate) {
    && Pool(cfg, row, base, quote)
    && row.liquidityUsd == Some(c.liquidityUsd) && c.pairAddress == row.pairAddress && c.quoteSymbol == row.quoteSymbol
    && c.tier == (if quote in cfg.stables then Stable else Native)
  }

  /** What a candidate of a contest says about its row, field by field. */
  predicate Says(cfg: Config, contest: Contest, row: Pair, base: Option<Address>, quote: Address, c: Candidate) {
    && Carries(cfg, row, base, quote, c)
    && match contest
       case ForAddress(key) =>
         key in cfg.wanted
         && ((base == Some(key) && quote in cfg.stables && InDollars(row, c) && c.basis == StableQuotePriceUsd)
             || (base == Some(key) && quote !in cfg.stables && quote == cfg.wrappedNative && InNatives(row, c))
             || (quote == key && quote in cfg.stables && QuoteInDollars(row, c)))
       case ForAnchor =>
         base == Some(cfg.wrappedNative) && quote in cfg.stables && InDollars(row, c) && c.basis == StableQuotePriceUsd
       case ForImplied =>
         quote == cfg.wrappedNative && quote !in cfg.stables && QuoteInDollars(row, c)
  }

  /** A quotient is the one number that gives the dividend back. */
  lemma Quotient(dividend: real, divisor: real, value: real)
    requires divisor > 0.0
    ensures value == dividend / divisor <==> value * divisor == dividend
    ensures dividend >= 0.0 ==> dividend / divisor >= 0.0
    ensures value >= 0.0 ==> value * divisor >= 0.0
  {
  }

  lemma InvertedIs(row: Pair, value: real)
    ensures Inverted(row) == Some(value) <==> QuoteWorth(row, value)
  {
    if row.priceUsd.Some? && row.priceNative.Some? && row.priceNative.value > 0.0 {
      var usd, native := row.priceUsd.value, row.priceNative.value;
      InvertedWorth(row, usd, native, value, usd / native);
    }
  }

  lemma InvertedWorth(row: Pair, usd: real, native: real, value: real, quotient: real)
    requires row.priceUsd == Some(usd) && row.priceNative == Some(native) && native > 0.0 && quotient == usd / native
    ensures Inverted(row) == Some(value) <==> QuoteWorth(row, value)
  {
    Quotient(usd, native, value);
    Quotient(usd, native, quotient);
    assert Inverted(row) == if usd >= 0.0 then Some(quotient) else None;
    assert QuoteWorth(row, value) <==> value >= 0.0 && value * native == usd;
  }

  /** The offers of a row are exactly what its fields say, none missing and none made up. */
  lemma OffersSay(cfg: Config, contest: Contest, row: Pair, c: Candidate)
    ensures c in RowOffers(cfg, contest, row)
       <==> exists base, quote :: Says(cfg, contest, row, base, quote, c)
  {
    InvertedIs(row, c.value);
    var base := Side(cfg, row.base);
    if row.quote.Some? {
      var quote := cfg.normalize(row.quote.value);
      OfferSays(cfg, contest, row, base, quote, c);
    }
  }

  lemma BaseSays(cfg: Config, row: Pair, base: Option<Address>, quote: Address, key: Address, c: Candidate)
    requires base == Side(cfg, row.base) && Side(cfg, row.quote) == Some(quote)
    ensures BaseOffer(cfg, row, key) == Some(c)
       <==> && Carries(cfg, row, base, quote, c) && key in cfg.wanted && base == Some(key)
            && ((quote in cfg.stables && InDollars(row, c) && c.basis == StableQuotePriceUsd)
                || (quote !in cfg.stables && quote == cfg.wrappedNative && InNatives(row, c)))
  {
  }

  lemma QuoteSays(cfg: Config, row: Pair, base: Option<Address>, quote: Address, key: Address, c: Candidate)
    requires base == Side(cfg, row.base) && Side(cfg, row.quote) == Some(quote)
    ensures QuoteOffer(cfg, row, key) == Some(c)
       <==> && Carries(cfg, row, base, quote, c) && key in cfg.wanted && quote == key
            && quote in cfg.stables && QuoteInDollars(row, c)
  {
    var offer := QuoteOffer(cfg, row, key);
    assert offer.Some? ==> Inverted(row) == Some(offer.value.value);
    assert offer == Some(c) ==> Inverted(row) == Some(c.value);
    InvertedIs(row, c.value);
  }

  lemma ImpliedSays(cfg: Config, row: Pair, base: Option<Address>, quote: Address, c: Candidate)
    requires base == Side(cfg, row.base) && Side(cfg, row.quote) == Some(quote)
    ensures c in RowOffers(cfg, ForImplied, row) <==> Says(cfg, ForImplied, row, base, quote, c)
  {
    var offer := ImpliedOffer(cfg, row);
    assert c in RowOffers(cfg, ForImplied, row) <==> offer == Some(c);
    assert offer.Some? ==> Inverted(row) == Some(offer.value.value);
    assert offer == Some(c) ==> Inverted(row) == Some(c.value);
    InvertedIs(row, c.value);
  }

  lemma AddressSays(cfg: Config, row: Pair, base: Option<Address>, quote: Address, key: Address, c: Candidate)
    requires base == Side(cfg, row.base) && Side(cfg, row.quote) == Some(quote)
    ensures c in RowOffers(cfg, ForAddress(key), row) <==> Says(cfg, ForAddress(key), row, base, quote, c)
  {
    BaseSays(cfg, row, base, quote, key, c);
    QuoteSays(cfg, row, base, quote, key, c);
    assert c in RowOffers(cfg, ForAddress(key), row)
      <==> BaseOffer(cfg, row, key) == Some(c) || QuoteOffer(cfg, row, key) == Some(c);
  }

  lemma OfferSays(cfg: Config, contest: Contest, row: Pair, base: Option<Address>, quote: Address, c: Candidate)
    requires base == Side(cfg, row.base) && Side(cfg, row.quote) == Some(quote)
    ensures c in RowOffers(cfg, contest, row) <==> Says(cfg, contest, row, base, quote, c)
  {
    match contest
    case ForAddress(key) => AddressSays(cfg, row, base, quote, key, c);
    case ForAnchor => assert c in RowOffers(cfg, contest, row) <==> AnchorOffer(cfg, row) == Some(c);
    case ForImplied => ImpliedSays(cfg, row, base, quote, c);
  }

  // ---------------------------------------------------------------- one pool alone

  /** A native pool alone prices its base at exactly the provider's dollar price. */
  lemma NativePoolAlone(cfg: Config, row: Pair, book: Book, key: Address)
    requires Answers(cfg, [row], book) && Pool(cfg, row, Some(key), cfg.wrappedNative)
    requires key in cfg.wanted && key != cfg.wrappedNative && cfg.wrappedNative !in cfg.stables
    requires row.priceUsd.Some? && row.priceUsd.value >= 0.0 && row.priceNative.Some? && row.priceNative.value > 0.0
    ensures Resolve(cfg, book, key).Some? && Resolve(cfg, book, key).value.price == row.priceUsd.value
  {
    var usd, native := row.priceUsd.value, row.priceNative.value;
    var implied := UsdOffer(row, StableQuoteInverted, Native, usd / native);
    var multiple := Candidate(Native, NativeQuoteMultiple, Depth(row), InNative, native, row.pairAddress, row.quoteSymbol);
    Quotient(usd, native, usd / native);
    assert RowOffers(cfg, ForImplied, row) == [implied] && RowOffers(cfg, ForAnchor, row) == [];
    assert RowOffers(cfg, ForAddress(key), row) == [multiple];
    OnlyOffer(cfg, row, book, ForImplied, implied);
    OnlyOffer(cfg, row, book, ForAddress(key), multiple);
    OneRow(cfg, ForAnchor, row);
    assert EarliestDeepest(Offers(cfg, ForAnchor, [row]), WinnerOf(book, ForAnchor));
    assert NativeSource(book) == Some(implied);
    Quotient(usd, native, usd / native);
    assert native * (usd / native) == usd;
  }

  /** In a stable pool alone the base costs priceNative times what the stable itself is priced at. */
  lemma StablePoolAlone(cfg: Config, row: Pair, book: Book, key: Address, quote: Address)
    requires Answers(cfg, [row], book) && Pool(cfg, row, Some(key), quote) && quote in cfg.stables
    requires key in cfg.wanted && quote in cfg.wanted && key != quote && quote != cfg.wrappedNative
    requires row.priceUsd.Some? && row.priceUsd.value >= 0.0 && row.priceNative.Some? && row.priceNative.value > 0.0
    ensures Resolve(cfg, book, key).Some? && Resolve(cfg, book, key).value.price == row.priceUsd.value
    ensures Resolve(cfg, book, quote).Some?
    ensures Resolve(cfg, book, quote).value.price * row.priceNative.value == row.priceUsd.value
  {
    var usd, native := row.priceUsd.value, row.priceNative.value;
    var dollars := UsdOffer(row, StableQuotePriceUsd, Stable, usd);
    var inverted := UsdOffer(row, StableQuoteInverted, Stable, usd / native);
    Quotient(usd, native, usd / native);
    assert RowOffers(cfg, ForAddress(key), row) == [dollars];
    assert RowOffers(cfg, ForAddress(quote), row) == [inverted];
    OnlyOffer(cfg, row, book, ForAddress(key), dollars);
    OnlyOffer(cfg, row, book, ForAddress(quote), inverted);
    if key == cfg.wrappedNative {
      assert RowOffers(cfg, ForAnchor, row) == [dollars];
      OnlyOffer(cfg, row, book, ForAnchor, dollars);
    }
  }

  lemma OnlyOffer(cfg: Config, row: Pair, book: Book, contest: Contest, c: Candidate)
    requires Answers(cfg, [row], book) && RowOffers(cfg, contest, row) == [c]
    ensures WinnerOf(book, contest) == Some(c)
  {
    OneRow(cfg, contest, row);
    assert [c][0] == c && EarliestDeepest([c], Some(c));
    WinnerUnique([c], WinnerOf(book, contest), Some(c));
  }

  // ---------------------------------------------------------------- any number of rows

  /** What prices the wrapped native: its deepest stable pool, and only without one the deepest implied price. */
  ghost predicate NativeIs(cfg: Config, rows: seq<Pair>, w: Candidate) {
    || EarliestDeepest(Offers(cfg, ForAnchor, rows), Some(w))
    || (Offers(cfg, ForAnchor, rows) == [] && EarliestDeepest(Offers(cfg, ForImplied, rows), Some(w)))
  }

  lemma SourceIs(cfg: Config, rows: seq<Pair>, book: Book, w: Candidate)
    requires Answers(cfg, rows, book)
    ensures NativeIs(cfg, rows, w) <==> NativeSource(book) == Some(w)
  {
    assert EarliestDeepest(Offers(cfg, ForAnchor, rows), WinnerOf(book, ForAnchor));
    assert EarliestDeepest(Offers(cfg, ForImplied, rows), WinnerOf(book, ForImplied));
    if EarliestDeepest(Offers(cfg, ForAnchor, rows), Some(w)) {
      WinnerUnique(Offers(cfg, ForAnchor, rows), WinnerOf(book, ForAnchor), Some(w));
    }
    if EarliestDeepest(Offers(cfg, ForImplied, rows), Some(w)) {
      WinnerUnique(Offers(cfg, ForImplied, rows), WinnerOf(book, ForImplied), Some(w));
    }
  }

  /** What a priced address shows: the row that decided, and its number in dollars. */
  predicate Shows(p: Priced, w: Candidate, price: real, basis: Basis) {
    && p.price == price && p.decision.basis == basis && p.decision.tier == w.tier
    && p.decision.pairAddress == w.pairAddress && p.decision.liquidityUsd == w.liquidityUsd
    && p.decision.quoteSymbol == w.quoteSymbol
  }

  /** The wanted wrapped native shows its source. */
  lemma NativeShows(cfg: Config, rows: seq<Pair>, book: Book, w: Candidate)
    requires Answers(cfg, rows, book) && cfg.wrappedNative in cfg.wanted && NativeIs(cfg, rows, w)
    ensures Resolve(cfg, book, cfg.wrappedNative).Some?
    ensures Shows(Resolve(cfg, book, cfg.wrappedNative).value, w, w.value, NativeAnchor)
  {
    SourceIs(cfg, rows, book, w);
  }

  /** Any other address shows its deepest trusted pool, in dollars or as a multiple of the native's number. */
  lemma AddressShows(cfg: Config, rows: seq<Pair>, book: Book, key: Address, w: Candidate, native: Candidate)
    requires Answers(cfg, rows, book) && key != cfg.wrappedNative
    requires EarliestDeepest(Offers(cfg, ForAddress(key), rows), Some(w))
    ensures w.kind == Usd ==>
              Resolve(cfg, book, key).Some? && Shows(Resolve(cfg, book, key).value, w, w.value, w.basis)
    ensures w.kind == InNative && NativeIs(cfg, rows, native) ==>
              Resolve(cfg, book, key).Some? && Shows(Resolve(cfg, book, key).value, w, w.value * native.value, w.basis)
  {
    assert EarliestDeepest(Offers(cfg, ForAddress(key), rows), WinnerOf(book, ForAddress(key)));
    WinnerUnique(Offers(cfg, ForAddress(key), rows), WinnerOf(book, ForAddress(key)), Some(w));
    WinnerIsOffer(cfg, ForAddress(key), rows, book);
    OfferIsUsable(cfg, ForAddress(key), rows, w);
    if NativeIs(cfg, rows, native) {
      SourceIs(cfg, rows, book, native);
      SourceIsUsable(cfg, rows, book);
      assert native.value >= 0.0 && w.value >= 0.0;
      assert w.value * native.value >= 0.0;
    }
  }

  // ---------------------------------------------------------------- rows that price nothing

  predicate OnThisChain(cfg: Config, row: Pair) {
    row.chainId.Some? && cfg.foldCase(row.chainId.value) == cfg.expectedChain
  }

  /** A row is thin for the wanted ones of its sides: of this chain, trusted, and below a thousand dollars or unknown. */
  lemma ThinSays(cfg: Config, row: Pair, key: Address)
    ensures key in ThinSides(cfg, row)
       <==> && key in cfg.wanted && OnThisChain(cfg, row)
            && (row.liquidityUsd.None? || row.liquidityUsd.value < 1000.0)
            && row.quote.Some?
            && (cfg.normalize(row.quote.value) in cfg.stables || cfg.normalize(row.quote.value) == cfg.wrappedNative)
            && (key == cfg.normalize(row.quote.value) || (row.base.Some? && key == cfg.normalize(row.base.value)))
  {
  }

  /** The counter of foreign rows is the number of rows that are not of this chain. */
  lemma {:induction false} ForeignCounted(cfg: Config, rows: seq<Pair>)
    ensures ForeignRows(cfg, rows) == |set i | 0 <= i < |rows| && !OnThisChain(cfg, rows[i])|
    decreases |rows|
  {
    if rows != [] {
      var n := |rows| - 1;
      var front := rows[..n];
      ForeignCounted(cfg, front);
      var before := set i | 0 <= i < n && !OnThisChain(cfg, front[i]);
      assert (set i | 0 <= i < |rows| && !OnThisChain(cfg, rows[i]))
          == before + (if OnThisChain(cfg, rows[n]) then {} else {n});
    }
  }
}
