/**
 createBestLiquidityPriceAccumulator of src/tools/dexscreener/best-liquidity-price.ts: the streaming
 state and its methods, against the declarative rule of PriceBook.
 */
module PriceAccumulator {
  import opened Options
  import opened PriceBook

  datatype Decision = Decision(tier: Tier, basis: Basis, pairAddress: string, liquidityUsd: real, quoteSymbol: Option<string>)

  datatype Priced = Priced(price: real, decision: Decision)

  datatype UnpricedReason = NoTrustedPool | BelowLiquidityFloor | NoNativePrice

  datatype TierCounts = TierCounts(tier0: nat, tier1: nat, unpriced: nat)

  // ---------------------------------------------------------------- resolving a book

  /** The deepest stable pool of the wrapped native, else the deepest implied price. */
  function NativeSource(book: Book): Option<Candidate> {
    if book.anchor.Some? then book.anchor else book.implied
  }

  function NativeUsd(book: Book): Option<real> {
    var source := NativeSource(book);
    if source.Some? then Some(source.value.value) else None
  }

  function PriceOf(c: Candidate, nativeUsd: Option<real>): Option<real> {
    if c.kind == Usd then Some(c.value)
    else if nativeUsd.None? then None
    else NonNegative(Some(c.value * nativeUsd.value))
  }

  function DecisionOf(c: Candidate, basis: Basis): Decision {
    Decision(c.tier, basis, c.pairAddress, c.liquidityUsd, c.quoteSymbol)
  }

  /** The price and decision of one address, if it has one. */
  function Resolve(cfg: Config, book: Book, key: Address): Option<Priced> {
    if key == cfg.wrappedNative && key in cfg.wanted && NativeSource(book).Some? then
      Some(Priced(NativeSource(book).value.value, DecisionOf(NativeSource(book).value, NativeAnchor)))
    else if key !in book.candidates then None
    else
      var price := PriceOf(book.candidates[key], NativeUsd(book));
      if price.None? then None
      else Some(Priced(price.value, DecisionOf(book.candidates[key], book.candidates[key].basis)))
  }

  function ReasonOf(cfg: Config, book: Book, key: Address): UnpricedReason {
    if key in book.candidates && NativeUsd(book).None? then NoNativePrice
    else if key in book.subFloor then BelowLiquidityFloor
    else NoTrustedPool
  }

  ghost predicate Holds(cfg: Config, book: Book, prices: map<Address, Priced>) {
    forall key :: Lookup(prices, key) == Resolve(cfg, book, key)
  }

  // ---------------------------------------------------------------- the accumulator

  class Accumulator {
    const cfg: Config
    var candidates: map<Address, Candidate>
    var nativeAnchor: Option<Candidate>
    var nativeImplied: Option<Candidate>
    var sawSubFloorTrustedPool: set<Address>
    var foreignChainPairs: nat
    /** Every row folded so far. */
    ghost var rows: seq<Pair>

    function Book(): Book
      reads this
    {
      PriceBook.Book(candidates, nativeAnchor, nativeImplied, sawSubFloorTrustedPool, foreignChainPairs)
    }

    ghost predicate Valid()
      reads this
    {
      Answers(cfg, rows, Book())
    }

    constructor (normalize: Address -> Address, foldCase: string -> string, wanted: set<Address>,
                 stables: set<Address>, wrappedNative: Address, expectedChain: string)
      ensures Valid() && rows == [] && Book() == EMPTY_BOOK
      ensures cfg == Config(normalize, foldCase, set a | a in wanted :: normalize(a),
                            set a | a in stables :: normalize(a), normalize(wrappedNative), foldCase(expectedChain))
    {
      cfg := Config(normalize, foldCase, set a | a in wanted :: normalize(a),
                    set a | a in stables :: normalize(a), normalize(wrappedNative), foldCase(expectedChain));
      candidates := map[];
      nativeAnchor, nativeImplied := None, None;
      sawSubFloorTrustedPool, foreignChainPairs, rows := {}, 0, [];
    }

    method Offer(key: Address, candidate: Candidate)
      modifies this`candidates
      ensures forall k :: Lookup(candidates, k)
                       == if k == key then Better(old(Lookup(candidates, k)), Some(candidate)) else old(Lookup(candidates, k))
    {
      if Beats(candidate, Lookup(candidates, key)) {
        candidates := candidates[key := candidate];
      }
    }

    /** The base and quote offers of a pool that met the floor. */
    method OfferSides(pair: Pair)
      requires OnChain(cfg, pair) && MeetsFloor(pair)
      modifies this`candidates
      ensures forall k :: Lookup(candidates, k)
                       == Better(Better(old(Lookup(candidates, k)), BaseOffer(cfg, pair, k)), QuoteOffer(cfg, pair, k))
    {
      var base, quote := Side(cfg, pair.base), Side(cfg, pair.quote);
      var tier := TierOf(cfg, quote);
      var priceUsd, priceNative := NonNegative(pair.priceUsd), Positive(pair.priceNative);
      if base.Some? && base.value in cfg.wanted {
        if tier == Stable && priceUsd.Some? {
          Offer(base.value, UsdOffer(pair, StableQuotePriceUsd, Stable, priceUsd.value));
        } else if tier == Native && priceNative.Some? {
          Offer(base.value, Candidate(Native, NativeQuoteMultiple, Depth(pair), InNative, priceNative.value,
                                      pair.pairAddress, pair.quoteSymbol));
        }
      }
      if quote.Some? && tier == Stable && quote.value in cfg.wanted && priceUsd.Some? && priceNative.Some? {
        var inverted := Inverted(pair);
        if inverted.Some? {
          Offer(quote.value, UsdOffer(pair, StableQuoteInverted, Stable, inverted.value));
        }
      }
    }

    /** The sources of the native price, whatever is wanted. */
    method OfferNative(pair: Pair)
      requires OnChain(cfg, pair) && MeetsFloor(pair)
      modifies this`nativeAnchor, this`nativeImplied
      ensures nativeAnchor == Better(old(nativeAnchor), AnchorOffer(cfg, pair))
      ensures nativeImplied == Better(old(nativeImplied), ImpliedOffer(cfg, pair))
    {
      var base, tier := Side(cfg, pair.base), PairTier(cfg, pair);
      var priceUsd, priceNative := NonNegative(pair.priceUsd), Positive(pair.priceNative);
      if tier == Stable && base == Some(cfg.wrappedNative) && priceUsd.Some? {
        var anchor := UsdOffer(pair, StableQuotePriceUsd, Stable, priceUsd.value);
        if Beats(anchor, nativeAnchor) {
          nativeAnchor := Some(anchor);
        }
      } else if tier == Native && priceUsd.Some? && priceNative.Some? {
        var impliedNativeUsd := Inverted(pair);
        if impliedNativeUsd.Some? {
          var implied := UsdOffer(pair, StableQuoteInverted, Native, impliedNativeUsd.value);
          if Beats(implied, nativeImplied) {
            nativeImplied := Some(implied);
          }
        }
      }
    }

    method AddPair(pair: Pair)
      requires Valid()
      modifies this
      ensures Valid() && rows == old(rows) + [pair]
    {
      ghost var before := Book();
      rows := rows + [pair];
      if !OnChain(cfg, pair) {
        foreignChainPairs := foreignChainPairs + 1;
      } else if !MeetsFloor(pair) {
        if PairTier(cfg, pair) != Untrusted {
          var base, quote := Side(cfg, pair.base), Side(cfg, pair.quote);
          if base.Some? && base.value in cfg.wanted {
            sawSubFloorTrustedPool := sawSubFloorTrustedPool + {base.value};
          }
          if quote.Some? && quote.value in cfg.wanted {
            sawSubFloorTrustedPool := sawSubFloorTrustedPool + {quote.value};
          }
        }
      } else {
        OfferNative(pair);
        OfferSides(pair);
      }
      RowFolded(cfg, old(rows), pair, before, Book());
    }

    /** Folding a batch appends it to what was folded before: how rows are batched leaves no trace. */
    method AddPairs(pairs: seq<Pair>)
      requires Valid()
      modifies this
      ensures Valid() && rows == old(rows) + pairs
    {
      for i := 0 to |pairs|
        invariant Valid() && rows == old(rows) + pairs[..i]
      {
        AddPair(pairs[i]);
        assert pairs[..i + 1] == pairs[..i] + [pairs[i]];
      }
      assert pairs[..|pairs|] == pairs;
    }

    method BuildPrices() returns (resolved: map<Address, Priced>)
      ensures Holds(cfg, Book(), resolved)
    {
      var nativeUsd := NativeUsd(Book());
      resolved := map[];
      var keys := candidates.Keys;
      while keys != {}
        invariant keys <= candidates.Keys
        invariant forall key :: Lookup(resolved, key)
                     == if key in candidates && key !in keys && PriceOf(candidates[key], nativeUsd).Some? then
                          Some(Priced(PriceOf(candidates[key], nativeUsd).value,
                                      DecisionOf(candidates[key], candidates[key].basis)))
                        else None
        decreases keys
      {
        var key :| key in keys;
        keys := keys - {key};
        var price := PriceOf(candidates[key], nativeUsd);
        if price.Some? {
          resolved := resolved[key := Priced(price.value, DecisionOf(candidates[key], candidates[key].basis))];
        }
      }
      if cfg.wrappedNative in cfg.wanted {
        var native := NativeSource(Book());
        if native.Some? {
          resolved := resolved[cfg.wrappedNative := Priced(native.value.value, DecisionOf(native.value, NativeAnchor))];
        }
      }
    }

    method CountTiers() returns (counts: TierCounts)
      ensures counts.tier0 == |PricedByStable(cfg, Book())|
      ensures counts.tier1 == |PricedByNative(cfg, Book())|
      ensures counts.unpriced == |Unpriced(cfg, Book())|
      ensures counts.tier0 + counts.tier1 + counts.unpriced == |cfg.wanted|
    {
      var resolved := BuildPrices();
      ghost var stable, native := PricedByStable(cfg, Book()), PricedByNative(cfg, Book());
      CountAll(cfg, Book());
      var tier0, tier1 := Tally(resolved, cfg.wanted, stable, native);
      counts := TierCounts(tier0, tier1, |cfg.wanted| - tier0 - tier1);
    }

    method UnpricedReasons() returns (reasons: map<Address, UnpricedReason>)
      ensures reasons.Keys == Unpriced(cfg, Book())
      ensures forall a | a in reasons :: reasons[a] == ReasonOf(cfg, Book(), a)
    {
      var resolved := BuildPrices();
      reasons := map[];
      var left := cfg.wanted;
      while left != {}
        invariant left <= cfg.wanted
        invariant reasons.Keys == set a | a in cfg.wanted - left && Resolve(cfg, Book(), a).None?
        invariant forall a | a in reasons :: reasons[a] == ReasonOf(cfg, Book(), a)
        decreases left
      {
        var address :| address in left;
        assert Lookup(resolved, address) == Resolve(cfg, Book(), address);
        if address !in resolved {
          reasons := reasons[address := ReasonOf(cfg, Book(), address)];
        }
        left := left - {address};
      }
    }
  }

  /** The counting loop of countTiers. */
  method Tally(prices: map<Address, Priced>, wanted: set<Address>, ghost stable: set<Address>, ghost native: set<Address>)
    returns (tier0: nat, tier1: nat)
    requires stable <= wanted && native <= wanted
    requires forall a | a in wanted :: a in stable <==> a in prices && prices[a].decision.tier == Stable
    requires forall a | a in wanted :: a in native <==> a in prices && prices[a].decision.tier != Stable
    ensures tier0 == |stable| && tier1 == |native|
  {
    tier0, tier1 := 0, 0;
    var left := wanted;
    ghost var sofar0: set<Address>, sofar1: set<Address> := {}, {};
    while left != {}
      invariant left <= wanted
      invariant forall a :: a in sofar0 <==> a in stable && a !in left
      invariant forall a :: a in sofar1 <==> a in native && a !in left
      invariant tier0 == |sofar0| && tier1 == |sofar1|
      decreases left
    {
      var address :| address in left;
      left := left - {address};
      if address in prices {
        if prices[address].decision.tier == Stable {
          tier0, sofar0 := tier0 + 1, sofar0 + {address};
        } else {
          tier1, sofar1 := tier1 + 1, sofar1 + {address};
        }
      }
    }
    assert sofar0 == stable && sofar1 == native;
  }

  function PricedByStable(cfg: Config, book: Book): set<Address> {
    set a | a in cfg.wanted && Resolve(cfg, book, a).Some? && Resolve(cfg, book, a).value.decision.tier == Stable
  }

  function PricedByNative(cfg: Config, book: Book): set<Address> {
    set a | a in cfg.wanted && Resolve(cfg, book, a).Some? && Resolve(cfg, book, a).value.decision.tier != Stable
  }

  function Unpriced(cfg: Config, book: Book): set<Address> {
    set a | a in cfg.wanted && Resolve(cfg, book, a).None?
  }

  /** Every wanted address is counted once. */
  lemma CountAll(cfg: Config, book: Book)
    ensures |PricedByStable(cfg, book)| + |PricedByNative(cfg, book)| + |Unpriced(cfg, book)| == |cfg.wanted|
  {
    var s, t, u := PricedByStable(cfg, book), PricedByNative(cfg, book), Unpriced(cfg, book);
    assert cfg.wanted == (s + t) + u && s !! t && (s + t) !! u;
  }

  // ---------------------------------------------------------------- one row

  lemma TwoOffers(offers: seq<Candidate>, winner: Option<Candidate>, first: Option<Candidate>, second: Option<Candidate>)
    requires EarliestDeepest(offers, winner)
    ensures EarliestDeepest(offers + (AsSeq(first) + AsSeq(second)), Better(Better(winner, first), second))
  {
    BetterWins(offers, winner, first);
    BetterWins(offers + AsSeq(first), Better(winner, first), second);
    assert offers + (AsSeq(first) + AsSeq(second)) == (offers + AsSeq(first)) + AsSeq(second);
  }

  /** Every contest's winner after one more row. */
  ghost predicate Folded(cfg: Config, pair: Pair, before: Book, after: Book) {
    && (forall k :: Lookup(after.candidates, k)
          == Better(Better(Lookup(before.candidates, k), BaseOffer(cfg, pair, k)), QuoteOffer(cfg, pair, k)))
    && after.anchor == Better(before.anchor, AnchorOffer(cfg, pair))
    && after.implied == Better(before.implied, ImpliedOffer(cfg, pair))
    && after.subFloor == before.subFloor + ThinSides(cfg, pair)
    && after.foreign == before.foreign + (if OnChain(cfg, pair) then 0 else 1)
  }

  lemma RowFolded(cfg: Config, rows: seq<Pair>, pair: Pair, before: Book, after: Book)
    requires Answers(cfg, rows, before) && Folded(cfg, pair, before, after)
    ensures Answers(cfg, rows + [pair], after)
  {
    var all := rows + [pair];
    assert all[..|all| - 1] == rows;
    forall contest
      ensures EarliestDeepest(Offers(cfg, contest, all), WinnerOf(after, contest))
    {
      var offers := Offers(cfg, contest, rows);
      CollectLast(rows, pair, Giving(cfg, contest));
      match contest {
        case ForAddress(k) =>
          TwoOffers(offers, Lookup(before.candidates, k), BaseOffer(cfg, pair, k), QuoteOffer(cfg, pair, k));
        case ForAnchor => BetterWins(offers, before.anchor, AnchorOffer(cfg, pair));
        case ForImplied => BetterWins(offers, before.implied, ImpliedOffer(cfg, pair));
      }
    }
  }
}
