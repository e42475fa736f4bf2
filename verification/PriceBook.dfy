/**
 The pricing rule of src/tools/dexscreener/best-liquidity-price.ts, declaratively: among all trusted
 pools of an address the earliest of the deepest wins, whatever its class, and the class only selects
 the arithmetic. Numbers are exact reals and every row field is already parsed to an optional number.
 */
module PriceBook {
  import opened Options

  type Address = string

  /** One provider row. */
  datatype Pair = Pair(
    chainId: Option<string>,
    liquidityUsd: Option<real>,
    base: Option<Address>,
    quote: Option<Address>,
    quoteSymbol: Option<string>,
    priceUsd: Option<real>,
    priceNative: Option<real>,
    pairAddress: string)

  /**
   One valuation pass. normalize is the caller's address identity; foldCase lowers a chain slug. The
   wanted set, stables, wrapped native and chain are in normal form.
   */
  datatype Config = Config(
    normalize: Address -> Address,
    foldCase: string -> string,
    wanted: set<Address>,
    stables: set<Address>,
    wrappedNative: Address,
    expectedChain: string)

  datatype Tier = Stable | Native | Untrusted

  datatype Basis = StableQuotePriceUsd | StableQuoteInverted | NativeQuoteMultiple | NativeAnchor

  datatype Kind = Usd | InNative

  datatype Candidate = Candidate(
    tier: Tier,
    basis: Basis,
    liquidityUsd: real,
    kind: Kind,
    value: real,
    pairAddress: string,
    quoteSymbol: Option<string>)

  const MIN_LIQUIDITY_USD := 1000.0

  // ---------------------------------------------------------------- reading a row

  function NonNegative(raw: Option<real>): Option<real> {
    if raw.Some? && raw.value >= 0.0 then raw else None
  }

  function Positive(raw: Option<real>): Option<real> {
    if raw.Some? && raw.value > 0.0 then raw else None
  }

  function Side(cfg: Config, raw: Option<Address>): Option<Address> {
    if raw.None? then None else Some(cfg.normalize(raw.value))
  }

  predicate OnChain(cfg: Config, pair: Pair) {
    pair.chainId.Some? && cfg.foldCase(pair.chainId.value) == cfg.expectedChain
  }

  function Depth(pair: Pair): real {
    var d := NonNegative(pair.liquidityUsd);
    if d.Some? then d.value else 0.0
  }

  function TierOf(cfg: Config, quote: Option<Address>): Tier {
    if quote.None? then Untrusted
    else if quote.value in cfg.stables then Stable
    else if quote.value == cfg.wrappedNative then Native
    else Untrusted
  }

  function PairTier(cfg: Config, pair: Pair): Tier {
    TierOf(cfg, Side(cfg, pair.quote))
  }

  predicate MeetsFloor(pair: Pair) {
    Depth(pair) >= MIN_LIQUIDITY_USD
  }

  /** A row that can be a price source at all. */
  predicate Eligible(cfg: Config, pair: Pair) {
    OnChain(cfg, pair) && MeetsFloor(pair) && PairTier(cfg, pair) != Untrusted
  }

  function UsdOffer(pair: Pair, basis: Basis, tier: Tier, value: real): Candidate {
    Candidate(tier, basis, Depth(pair), Usd, value, pair.pairAddress, pair.quoteSymbol)
  }

  function Inverted(pair: Pair): Option<real> {
    var usd, native := NonNegative(pair.priceUsd), Positive(pair.priceNative);
    if usd.Some? && native.Some? then NonNegative(Some(usd.value / native.value)) else None
  }

  /** What a row offers as the price of the wrapped native, from a stable pool. */
  function AnchorOffer(cfg: Config, pair: Pair): Option<Candidate> {
    var usd := NonNegative(pair.priceUsd);
    if Eligible(cfg, pair) && PairTier(cfg, pair) == Stable && Side(cfg, pair.base) == Some(cfg.wrappedNative) && usd.Some?
    then Some(UsdOffer(pair, StableQuotePriceUsd, Stable, usd.value)) else None
  }

  /** What a row implies the wrapped native is worth, from a native pool. */
  function ImpliedOffer(cfg: Config, pair: Pair): Option<Candidate> {
    if Eligible(cfg, pair) && PairTier(cfg, pair) == Native && Inverted(pair).Some?
    then Some(UsdOffer(pair, StableQuoteInverted, Native, Inverted(pair).value)) else None
  }

  /** What a row offers for its base. */
  function BaseOffer(cfg: Config, pair: Pair, key: Address): Option<Candidate> {
    var usd, native := NonNegative(pair.priceUsd), Positive(pair.priceNative);
    if !Eligible(cfg, pair) || Side(cfg, pair.base) != Some(key) || key !in cfg.wanted then None
    else if PairTier(cfg, pair) == Stable && usd.Some? then Some(UsdOffer(pair, StableQuotePriceUsd, Stable, usd.value))
    else if PairTier(cfg, pair) == Native && native.Some? then
      Some(Candidate(Native, NativeQuoteMultiple, Depth(pair), InNative, native.value, pair.pairAddress, pair.quoteSymbol))
    else None
  }

  /** What a row offers for its quote, when that is the stablecoin itself. */
  function QuoteOffer(cfg: Config, pair: Pair, key: Address): Option<Candidate> {
    if Eligible(cfg, pair) && PairTier(cfg, pair) == Stable && Side(cfg, pair.quote) == Some(key)
       && key in cfg.wanted && Inverted(pair).Some?
    then Some(UsdOffer(pair, StableQuoteInverted, Stable, Inverted(pair).value)) else None
  }

  function AsSeq(o: Option<Candidate>): seq<Candidate> {
    if o.Some? then [o.value] else []
  }

  // ---------------------------------------------------------------- the declarative answer

  /** The competitions: one per address, and two for the price of the wrapped native. */
  datatype Contest = ForAddress(key: Address) | ForAnchor | ForImplied

  function RowOffers(cfg: Config, contest: Contest, pair: Pair): seq<Candidate> {
    match contest
    case ForAddress(key) => AsSeq(BaseOffer(cfg, pair, key)) + AsSeq(QuoteOffer(cfg, pair, key))
    case ForAnchor => AsSeq(AnchorOffer(cfg, pair))
    case ForImplied => AsSeq(ImpliedOffer(cfg, pair))
  }

  /** What each row gives, in row order. */
  function Collect(rows: seq<Pair>, give: Pair -> seq<Candidate>): seq<Candidate> {
    if rows == [] then []
    else Collect(rows[..|rows| - 1], give) + give(rows[|rows| - 1])
  }

  function Giving(cfg: Config, contest: Contest): Pair -> seq<Candidate> {
    pair => RowOffers(cfg, contest, pair)
  }

  function Offers(cfg: Config, contest: Contest, rows: seq<Pair>): seq<Candidate> {
    Collect(rows, Giving(cfg, contest))
  }

  lemma CollectLast(rows: seq<Pair>, row: Pair, give: Pair -> seq<Candidate>)
    ensures Collect(rows + [row], give) == Collect(rows, give) + give(row)
  {
    assert (rows + [row])[..|rows|] == rows;
  }

  /** The earliest of the deepest offers, or nothing when there is no offer. */
  ghost predicate EarliestDeepest(offers: seq<Candidate>, winner: Option<Candidate>) {
    match winner
    case None => offers == []
    case Some(w) =>
      exists i | 0 <= i < |offers| ::
        && offers[i] == w
        && (forall j | 0 <= j < |offers| :: offers[j].liquidityUsd <= w.liquidityUsd)
        && (forall j | 0 <= j < i :: offers[j].liquidityUsd < w.liquidityUsd)
  }

  /** The accumulator's state. */
  datatype Book = Book(
    candidates: map<Address, Candidate>,
    anchor: Option<Candidate>,
    implied: Option<Candidate>,
    subFloor: set<Address>,
    foreign: nat)

  const EMPTY_BOOK := Book(map[], None, None, {}, 0)

  function WinnerOf(book: Book, contest: Contest): Option<Candidate> {
    match contest
    case ForAddress(key) => Lookup(book.candidates, key)
    case ForAnchor => book.anchor
    case ForImplied => book.implied
  }

  /** Sides of a thin trusted row that are wanted. */
  function ThinSides(cfg: Config, pair: Pair): set<Address> {
    if !OnChain(cfg, pair) || MeetsFloor(pair) || PairTier(cfg, pair) == Untrusted then {}
    else
      (if Side(cfg, pair.base).Some? then {Side(cfg, pair.base).value} * cfg.wanted else {})
      + (if Side(cfg, pair.quote).Some? then {Side(cfg, pair.quote).value} * cfg.wanted else {})
  }

  function Thin(cfg: Config, rows: seq<Pair>): set<Address> {
    if rows == [] then {} else Thin(cfg, rows[..|rows| - 1]) + ThinSides(cfg, rows[|rows| - 1])
  }

  function ForeignRows(cfg: Config, rows: seq<Pair>): nat {
    if rows == [] then 0
    else ForeignRows(cfg, rows[..|rows| - 1]) + (if OnChain(cfg, rows[|rows| - 1]) then 0 else 1)
  }

  /** The book holds the declarative answer on these rows. */
  ghost predicate Answers(cfg: Config, rows: seq<Pair>, book: Book) {
    && (forall contest :: EarliestDeepest(Offers(cfg, contest, rows), WinnerOf(book, contest)))
    && book.subFloor == Thin(cfg, rows)
    && book.foreign == ForeignRows(cfg, rows)
  }

  // ---------------------------------------------------------------- folding one row

  predicate Beats(next: Candidate, current: Option<Candidate>) {
    current.None? || next.liquidityUsd > current.value.liquidityUsd
  }

  function Better(current: Option<Candidate>, offer: Option<Candidate>): Option<Candidate> {
    if offer.Some? && Beats(offer.value, current) then offer else current
  }

  lemma BetterWins(offers: seq<Candidate>, winner: Option<Candidate>, offer: Option<Candidate>)
    requires EarliestDeepest(offers, winner)
    ensures EarliestDeepest(offers + AsSeq(offer), Better(winner, offer))
  {
    if offer.None? {
      assert offers + [] == offers;
    } else {
      var all := offers + [offer.value];
      var n := |offers|;
      assert all[n] == offer.value;
      if winner.Some? {
        var i :| 0 <= i < n && offers[i] == winner.value
                 && (forall j | 0 <= j < n :: offers[j].liquidityUsd <= winner.value.liquidityUsd)
                 && (forall j | 0 <= j < i :: offers[j].liquidityUsd < winner.value.liquidityUsd);
        assert all[i] == winner.value;
      }
    }
  }

  lemma WinnerUnique(offers: seq<Candidate>, v: Option<Candidate>, w: Option<Candidate>)
    requires EarliestDeepest(offers, v) && EarliestDeepest(offers, w)
    ensures v == w
  {
  }
}
