/** The state of one product tile and the handlers that change it: the price lookup that ends
    the loading placeholder, the details toggle, the points award on "View Product" and the
    wishlist button. Remote writes to the user store are recorded in an effect log; whether
    a write succeeds is a parameter of the handler that issues it. */
module ProductCard {
  import EcoScore

  datatype Option<T> = None | Some(value: T)

  /** A price object as the pricing service sends it: current amount, currency and amount
      saved, each of which may be missing. Amounts are decimal numbers. */
  datatype Price = Price(current: Option<real>, currency: Option<string>, saved: Option<real>)

  /** How the price lookup ended: the service answered (with a price, or with none),
      or the request or its decoding failed. */
  datatype PriceLookup = Answered(price: Option<Price>) | Failed

  /** The signed-in user, identified by uid. */
  datatype User = User(uid: string)

  /** What the wishlist button appends to the user's wishlist. */
  datatype WishlistEntry = WishlistEntry(
    title: string, link: string, image: string, ecoScore: int,
    price: Option<real>, currency: Option<string>)

  /** A write to the remote user store: a points increment, counted in half points, or a
      wishlist append, with whether the store accepted it. */
  datatype Effect =
    | PointsIncrement(uid: string, halfPoints: int)
    | WishlistWrite(uid: string, entry: WishlistEntry, succeeded: bool)

  /** The minimum score that earns points, and the award per visit (half a point). */
  const AwardThreshold: int := 20
  const HalfPointsPerAward: int := 1

  /** A decimal number with no fractional part. */
  predicate Whole(x: real)
  {
    x == x.Floor as real
  }

  /** The stand-in price after a failed lookup, from two draws of the random generator, each
      in [0, 1): the first picks the units added to 20, the second the amount saved. */
  function FallbackPrice(unitsDraw: real, savedDraw: real): (p: Price)
    requires 0.0 <= unitsDraw < 1.0 && 0.0 <= savedDraw < 1.0
    ensures p.current.Some? && Whole(p.current.value) && 20.0 <= p.current.value <= 29.0
    ensures p.saved.Some? && Whole(p.saved.value) && 0.0 <= p.saved.value <= 19.0
    ensures p.currency == Some("USD")
  {
    Price(Some(((unitsDraw * 10.0).Floor + 20) as real), Some("USD"), Some((savedDraw * 20.0).Floor as real))
  }

  /** The points write a visit issues, if any. */
  function PointsAward(score: int, user: Option<User>): (e: Option<Effect>)
    ensures e.Some? <==> score >= AwardThreshold && user.Some?
    ensures e.Some? ==> e.value == PointsIncrement(user.value.uid, HalfPointsPerAward)
  {
    if score >= AwardThreshold then
      match user
      case Some(u) => Some(PointsIncrement(u.uid, HalfPointsPerAward))
      case None => None
    else None
  }

  function OptionToSeq<T>(o: Option<T>): seq<T>
  {
    match o
    case Some(x) => [x]
    case None => []
  }

  predicate SuccessfulWrite(e: Effect)
  {
    e.WishlistWrite? && e.succeeded
  }

  class Card {
    const title: string
    const snippet: string
    const link: string
    const image: string
    const ecoScore: int

    var price: Option<Price>
    var loading: bool
    var isWishlisted: bool
    var showDetails: bool
    var effects: seq<Effect>

    /** The score is the one for this title and snippet; the heart is filled exactly when a
        wishlist write of this card has succeeded; every points write is a single award of a
        card scoring at least the threshold; every wishlist write carries this card's data. */
    ghost predicate Valid()
      reads this
    {
      && ecoScore == EcoScore.Score(title, snippet)
      && (isWishlisted <==> exists e | e in effects :: SuccessfulWrite(e))
      && (forall e | e in effects && e.PointsIncrement? ::
            ecoScore >= AwardThreshold && e.halfPoints == HalfPointsPerAward)
      && (forall e | e in effects && e.WishlistWrite? ::
            e.entry.title == title && e.entry.link == link && e.entry.image == image
            && e.entry.ecoScore == ecoScore)
    }

    /** A freshly mounted tile: score computed, price loading, nothing written. */
    constructor (title: string, snippet: string, link: string, image: string)
      ensures Valid()
      ensures this.title == title && this.snippet == snippet && this.link == link && this.image == image
      ensures ecoScore == EcoScore.Score(title, snippet)
      ensures price == None && loading && !isWishlisted && !showDetails && effects == []
    {
      this.title := title;
      this.snippet := snippet;
      this.link := link;
      this.image := image;
      var score := EcoScore.CalculateEcoScore(title, snippet);
      this.ecoScore := score;
      price := None;
      loading := true;
      isWishlisted := false;
      showDetails := false;
      effects := [];
    }

    /** The price lookup settles: the answer's price, or the stand-in after a failure, and the
        placeholder goes away for good. */
    method PriceSettled(lookup: PriceLookup, unitsDraw: real, savedDraw: real)
      requires Valid()
      requires 0.0 <= unitsDraw < 1.0 && 0.0 <= savedDraw < 1.0
      modifies this
      ensures Valid()
      ensures !loading
      ensures price == (match lookup
                        case Answered(p) => p
                        case Failed => Some(FallbackPrice(unitsDraw, savedDraw)))
      ensures isWishlisted == old(isWishlisted) && showDetails == old(showDetails) && effects == old(effects)
    {
      match lookup {
        case Answered(p) =>
          price := p;
        case Failed =>
          price := Some(FallbackPrice(unitsDraw, savedDraw));
      }
      loading := false;
    }

    /** The "Sustainability Details" button flips the details panel. */
    method ToggleDetails()
      requires Valid()
      modifies this
      ensures Valid()
      ensures showDetails == !old(showDetails)
      ensures price == old(price) && loading == old(loading) && isWishlisted == old(isWishlisted)
      ensures effects == old(effects)
    {
      showDetails := !showDetails;
    }

    /** "View Product": half a point for the signed-in user when the score reaches the
        threshold, and nothing else. */
    method AwardPoints(user: Option<User>)
      requires Valid()
      modifies this
      ensures Valid()
      ensures effects == old(effects) + OptionToSeq(PointsAward(ecoScore, user))
      ensures price == old(price) && loading == old(loading) && isWishlisted == old(isWishlisted)
      ensures showDetails == old(showDetails)
    {
      if ecoScore >= AwardThreshold {
        if user.Some? {
          effects := effects + [PointsIncrement(user.value.uid, HalfPointsPerAward)];
        }
      }
    }

    /** The wishlist entry this card appends: amount and currency are those of the price
        object, and missing when there is none or when the object lacks them. */
    function Entry(): (entry: WishlistEntry)
      reads this
      ensures entry.title == title && entry.link == link && entry.image == image
      ensures entry.ecoScore == ecoScore
      ensures price.None? ==> entry.price.None? && entry.currency.None?
      ensures price.Some? ==> entry.price == price.value.current && entry.currency == price.value.currency
    {
      match price
      case Some(p) => WishlistEntry(title, link, image, ecoScore, p.current, p.currency)
      case None => WishlistEntry(title, link, image, ecoScore, None, None)
    }

    /** The wishlist button: without a user nothing happens; with one, the entry is written,
        and the heart fills only if the write succeeds. A failed write is swallowed. */
    method AddToWishlist(user: Option<User>, writeSucceeds: bool)
      requires Valid()
      modifies this
      ensures Valid()
      ensures user.None? ==> effects == old(effects) && isWishlisted == old(isWishlisted)
      ensures user.Some? ==>
                effects == old(effects) + [WishlistWrite(user.value.uid, old(Entry()), writeSucceeds)]
                && isWishlisted == (old(isWishlisted) || writeSucceeds)
      ensures old(isWishlisted) ==> isWishlisted
      ensures price == old(price) && loading == old(loading) && showDetails == old(showDetails)
    {
      if user.Some? {
        var write := WishlistWrite(user.value.uid, Entry(), writeSucceeds);
        effects := effects + [write];
        if writeSucceeds {
          isWishlisted := true;
          assert SuccessfulWrite(write) && write in effects;
        }
      }
    }
  }
}
