/**
 * Promo-code validation and discount, as the live component's `updateCode` action and the product
 * page's form branch both do it: look the code up for the product, reject it when it is unknown or
 * expired, and otherwise take its percentage off the product's price. The repository is a sequence
 * of stored codes and the clock is a parameter.
 */
module Promo {
  import opened Wrappers
  import opened ByteStrings
  import opened Entities

  /** "Code promo invalide ou non applicable à ce produit." (UTF-8). */
  const InvalidMessage: Bytes := Ascii("Code promo invalide ou non applicable ") + AGrave + Ascii(" ce produit.")

  /** "Ce code promo est expiré." (UTF-8). */
  const ExpiredMessage: Bytes := Ascii("Ce code promo est expir") + EAcute + Ascii(".")

  const ErrorKind: Bytes := Ascii("error")

  /** PHP `empty()` on a nullable string: null, "" and "0". */
  predicate IsEmptyCode(code: Option<Bytes>) {
    code == None || code == Some([]) || code == Some(Ascii("0"))
  }

  // ---------------------------------------------------------------- the repository lookup

  /** The criteria `['code' => code, 'product' => product]`; a null code asks for a null column. */
  predicate Matches(promoCode: PromoCode, code: Option<Bytes>, product: Product)
    reads promoCode
  {
    promoCode.code == code && promoCode.product == product
  }

  /** Index of the first stored code meeting the criteria, |store| when none does. */
  function FirstMatch(store: seq<PromoCode>, code: Option<Bytes>, product: Product): (i: nat)
    reads store
    ensures i <= |store|
    ensures forall j :: 0 <= j < i ==> !Matches(store[j], code, product)
    ensures i < |store| ==> Matches(store[i], code, product)
    decreases |store|
  {
    if store == [] then 0
    else if Matches(store[0], code, product) then 0
    else 1 + FirstMatch(store[1..], code, product)
  }

  /** `findOneBy`: the first stored code meeting the criteria, or null when there is none. */
  function FindOneBy(store: seq<PromoCode>, code: Option<Bytes>, product: Product): (found: PromoCode?)
    reads store
    ensures found == null <==> forall j :: 0 <= j < |store| ==> !Matches(store[j], code, product)
    ensures found != null ==> found in store && Matches(found, code, product)
  {
    var i := FirstMatch(store, code, product);
    if i < |store| then store[i] else null
  }

  // ---------------------------------------------------------------- the decision

  /**
   * `getDateExpiration() < now`: strictly before now. A null expiration compares below any date in
   * PHP, so a code without one counts as expired.
   */
  predicate IsExpired(expiration: Option<Instant>, now: Instant) {
    expiration.None? || expiration.value < now
  }

  /** `price - price * (pct / 100)`, with no clamping of the percentage. */
  function DiscountedPrice(price: real, pct: real): (r: real)
    ensures r == price * (1.0 - pct / 100.0)
  {
    price - price * (pct / 100.0)
  }

  /** What a lookup leads to. */
  datatype Outcome = NoCode | Invalid | Expired | Discounted(price: real)

  /**
   * The decision tree both callers share once a code was looked up: nothing found, found but expired,
   * or the discounted price. A null price or percentage counts as 0, as in PHP arithmetic.
   */
  function Decide(found: PromoCode?, price: Option<real>, now: Instant): (o: Outcome)
    reads found
    ensures o == Invalid <==> found == null
    ensures o == Expired <==> found != null && IsExpired(found.dateExpiration, now)
    ensures o.Discounted? <==> found != null && !IsExpired(found.dateExpiration, now)
    ensures o.Discounted? ==> o.price == price.GetOr(0.0) * (1.0 - found.pourcentage.GetOr(0.0) / 100.0)
    ensures o != NoCode
  {
    if found == null then Invalid
    else if IsExpired(found.GetDateExpiration(), now) then Expired
    else Discounted(DiscountedPrice(price.GetOr(0.0), found.GetPourcentage().GetOr(0.0)))
  }

  // ---------------------------------------------------------------- the live component

  /** `updateCode`: an empty code clears both outputs; any other code is looked up and decided. */
  function UpdateOutcome(code: Option<Bytes>, store: seq<PromoCode>, product: Product, now: Instant): (o: Outcome)
    reads store, product
    ensures o == NoCode <==> IsEmptyCode(code)
    ensures !IsEmptyCode(code) ==> o == Decide(FindOneBy(store, code, product), product.price, now)
  {
    if IsEmptyCode(code) then NoCode else Decide(FindOneBy(store, code, product), product.GetPrice(), now)
  }

  /** The two outputs the component displays. */
  datatype Outputs = Outputs(discountedPrice: Option<real>, errorMessage: Option<Bytes>)

  /** The component's outputs for an outcome: never both set, the price only for a discount. */
  function ComponentOutputs(o: Outcome): (out: Outputs)
    ensures out.discountedPrice == None || out.errorMessage == None
    ensures out.discountedPrice.Some? <==> o.Discounted?
    ensures o.Discounted? ==> out.discountedPrice == Some(o.price)
    ensures out.errorMessage == Some(InvalidMessage) <==> o == Invalid
    ensures out.errorMessage == Some(ExpiredMessage) <==> o == Expired
    ensures out.errorMessage == None <==> o == NoCode || o.Discounted?
  {
    match o
    case NoCode => Outputs(None, None)
    case Invalid => Outputs(None, Some(InvalidMessage))
    case Expired => Outputs(None, Some(ExpiredMessage))
    case Discounted(price) => Outputs(Some(price), None)
  }

  /** The live component: the product shown, the code typed in, and the two outputs it displays. */
  class PromoCodeComponent {
    var product: Product
    var code: Option<Bytes>
    var discountedPrice: Option<real>
    var errorMessage: Option<Bytes>

    constructor (product: Product)
      ensures this.product == product && code == None && discountedPrice == None && errorMessage == None
    {
      this.product := product;
      code := None;
      discountedPrice := None;
      errorMessage := None;
    }

    /**
     * `updateCode`: every path assigns both outputs, so they depend only on the code, the product,
     * the stored codes and the time, and at most one of them is set. The code and the product are
     * not changed.
     */
    method UpdateCode(store: seq<PromoCode>, now: Instant)
      modifies this`discountedPrice, this`errorMessage
      ensures Outputs(discountedPrice, errorMessage) == ComponentOutputs(UpdateOutcome(code, store, product, now))
      ensures discountedPrice == None || errorMessage == None
    {
      if IsEmptyCode(code) {
        discountedPrice := None;
        errorMessage := None;
        return;
      }
      var promoCode := FindOneBy(store, code, product);
      if promoCode == null {
        errorMessage := Some(InvalidMessage);
        discountedPrice := None;
        return;
      }
      if IsExpired(promoCode.GetDateExpiration(), now) {
        errorMessage := Some(ExpiredMessage);
        discountedPrice := None;
        return;
      }
      errorMessage := None;
      var price := product.GetPrice().GetOr(0.0);
      var reductionAmount := price * (promoCode.GetPourcentage().GetOr(0.0) / 100.0);
      discountedPrice := Some(price - reductionAmount);
      assert UpdateOutcome(code, store, product, now) == Discounted(price - reductionAmount);
    }
  }

  // ---------------------------------------------------------------- the product page

  /** The promo-code form as the request left it: not submitted, submitted but invalid, or valid. */
  datatype FormState = NotSubmitted | SubmittedInvalid | SubmittedValid(code: Option<Bytes>)

  /** A flash message: its kind and its text. */
  datatype Flash = Flash(kind: Bytes, message: Bytes)

  /** The session's flash messages, in the order they were added. */
  class FlashBag {
    var flashes: seq<Flash>

    constructor ()
      ensures flashes == []
    {
      flashes := [];
    }

    /** `addFlash`. */
    method Add(kind: Bytes, message: Bytes)
      modifies this`flashes
      ensures flashes == old(flashes) + [Flash(kind, message)]
    {
      flashes := flashes + [Flash(kind, message)];
    }
  }

  /** The form branch: only a submitted, valid form is looked up, and its code is never tested for emptiness. */
  function PageOutcome(form: FormState, store: seq<PromoCode>, product: Product, now: Instant): (o: Outcome)
    reads store, product
    ensures o == NoCode <==> !form.SubmittedValid?
    ensures form.SubmittedValid? ==> o == Decide(FindOneBy(store, form.code, product), product.price, now)
  {
    if form.SubmittedValid? then Decide(FindOneBy(store, form.code, product), product.GetPrice(), now) else NoCode
  }

  /** The price handed to the template for an outcome. */
  function PagePrice(o: Outcome): (price: Option<real>)
    ensures price.Some? <==> o.Discounted?
    ensures o.Discounted? ==> price == Some(o.price)
  {
    if o.Discounted? then Some(o.price) else None
  }

  /** The flash messages added for an outcome: one error for an unknown or expired code, none otherwise. */
  function PageFlashes(o: Outcome): (flashes: seq<Flash>)
    ensures |flashes| <= 1
    ensures flashes == [Flash(ErrorKind, InvalidMessage)] <==> o == Invalid
    ensures flashes == [Flash(ErrorKind, ExpiredMessage)] <==> o == Expired
    ensures flashes == [] <==> o == NoCode || o.Discounted?
  {
    match o
    case Invalid => [Flash(ErrorKind, InvalidMessage)]
    case Expired => [Flash(ErrorKind, ExpiredMessage)]
    case _ => []
  }

  /**
   * The promo-code branch of the product page: the discounted price it renders and the flash messages
   * it adds.
   */
  method ShowProduct(product: Product, form: FormState, store: seq<PromoCode>, now: Instant, flashBag: FlashBag)
    returns (discountedPrice: Option<real>)
    modifies flashBag`flashes
    ensures discountedPrice == PagePrice(PageOutcome(form, store, product, now))
    ensures flashBag.flashes == old(flashBag.flashes) + PageFlashes(PageOutcome(form, store, product, now))
  {
    discountedPrice := None;
    if form.SubmittedValid? {
      var promoCode := FindOneBy(store, form.code, product);
      if promoCode == null {
        flashBag.Add(ErrorKind, InvalidMessage);
      } else if IsExpired(promoCode.GetDateExpiration(), now) {
        flashBag.Add(ErrorKind, ExpiredMessage);
      } else {
        var price := product.GetPrice().GetOr(0.0);
        var reductionAmount := price * (promoCode.GetPourcentage().GetOr(0.0) / 100.0);
        discountedPrice := Some(price - reductionAmount);
        assert PageOutcome(form, store, product, now) == Discounted(price - reductionAmount);
      }
    }
  }

  // ---------------------------------------------------------------- properties

  /**
   * For a code that is not empty, the component and a valid form reach the same outcome: the same
   * price, and the component's error message is exactly the text of the page's one error flash.
   */
  lemma ComponentAgreesWithPage(code: Option<Bytes>, store: seq<PromoCode>, product: Product, now: Instant)
    requires !IsEmptyCode(code)
    ensures UpdateOutcome(code, store, product, now) == PageOutcome(SubmittedValid(code), store, product, now)
    ensures var o := UpdateOutcome(code, store, product, now);
            && ComponentOutputs(o).discountedPrice == PagePrice(o)
            && (forall m :: ComponentOutputs(o).errorMessage == Some(m) <==> PageFlashes(o) == [Flash(ErrorKind, m)])
            && (ComponentOutputs(o).errorMessage == None <==> PageFlashes(o) == [])
  {
    var o := UpdateOutcome(code, store, product, now);
    assert o != NoCode;
    assert InvalidMessage != ExpiredMessage by {
      assert InvalidMessage[1] != ExpiredMessage[1];
    }
  }

  /**
   * The two callers part ways on the code "0": the component takes it for no code at all, while the
   * page looks it up and always reports an outcome, `Invalid` when no code matches.
   */
  lemma ZeroCodeDiverges(store: seq<PromoCode>, product: Product, now: Instant)
    ensures UpdateOutcome(Some(Ascii("0")), store, product, now) == NoCode
    ensures PageOutcome(SubmittedValid(Some(Ascii("0"))), store, product, now) != NoCode
  {
    var form := SubmittedValid(Some(Ascii("0")));
    assert form.SubmittedValid?;
  }

  /** Without a valid submission the page renders no price and adds no flash. */
  lemma NoPriceUnlessSubmitted(form: FormState, store: seq<PromoCode>, product: Product, now: Instant)
    requires !form.SubmittedValid?
    ensures PagePrice(PageOutcome(form, store, product, now)) == None
    ensures PageFlashes(PageOutcome(form, store, product, now)) == []
  {
  }

  /**
   * A percentage between 0 and 100 keeps a non-negative price between 0 and the price: 0% leaves it,
   * 100% makes it free, and a larger percentage lowers it further.
   */
  lemma DiscountBounds(price: real, pct: real)
    requires price >= 0.0 && 0.0 <= pct <= 100.0
    ensures 0.0 <= DiscountedPrice(price, pct) <= price
    ensures pct == 0.0 ==> DiscountedPrice(price, pct) == price
    ensures pct == 100.0 ==> DiscountedPrice(price, pct) == 0.0
    ensures forall q :: pct <= q <= 100.0 ==> DiscountedPrice(price, q) <= DiscountedPrice(price, pct)
  {
    assert price * (pct / 100.0) <= price * 1.0;
    forall q | pct <= q <= 100.0
      ensures DiscountedPrice(price, q) <= DiscountedPrice(price, pct)
    {
      assert price * (q / 100.0) - price * (pct / 100.0) == price * ((q - pct) / 100.0);
    }
  }

  /** A code expiring exactly now is still accepted; one that expired a moment ago is not. */
  lemma ExpiryIsStrict(now: Instant)
    ensures !IsExpired(Some(now), now)
    ensures IsExpired(Some(now - 1), now)
    ensures IsExpired(None, now)
  {
  }
}
