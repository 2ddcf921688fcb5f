/**
 * The two Doctrine entities: Product owns a collection of PromoCodes, and each PromoCode points back
 * to its Product. Fields are nullable as in the entities (null until set or persisted); the
 * collection is a sequence of object references compared by identity.
 */
module Entities {
  import opened Wrappers
  import opened ByteStrings

  /** A point in time (a DateTimeImmutable), as a count of microseconds; comparison is by instant. */
  type Instant = int

  /** Position of the first occurrence of `x` in `s` (`array_search` with strict comparison). */
  function IndexOf<T(==)>(s: seq<T>, x: T): (k: nat)
    requires x in s
    ensures k < |s| && s[k] == x && x !in s[..k]
  {
    if s[0] == x then 0
    else
      assert s == [s[0]] + s[1..];
      var k := IndexOf(s[1..], x);
      assert s[..k + 1] == [s[0]] + s[1..][..k];
      k + 1
  }

  /**
   * `ArrayCollection::removeElement`: drops the first occurrence of `x`, if any; the elements before
   * it stay in place and those after it move down by one.
   */
  function RemoveElement<T(==)>(s: seq<T>, x: T): (r: seq<T>)
    ensures x !in s ==> r == s
    ensures x in s ==> var k := IndexOf(s, x);
                       |r| == |s| - 1 && r[..k] == s[..k] && r[k..] == s[k + 1..]
    ensures x in s ==> multiset(r) == multiset(s) - multiset{x}
    ensures forall y :: y in r ==> y in s
  {
    if x in s then
      var k := IndexOf(s, x);
      assert s == s[..k] + [x] + s[k + 1..];
      s[..k] + s[k + 1..]
    else
      s
  }

  /** No object occurs twice in `s`. */
  predicate Distinct<T(==)>(s: seq<T>) {
    forall i, j :: 0 <= i < j < |s| ==> s[i] != s[j]
  }

  /** Removing an element from a sequence without repetitions removes it entirely and keeps it distinct. */
  lemma RemoveElementDistinct<T>(s: seq<T>, x: T)
    requires Distinct(s)
    ensures x !in RemoveElement(s, x) && Distinct(RemoveElement(s, x))
  {
    if x in s {
      var r := RemoveElement(s, x);
      var k := IndexOf(s, x);
      forall i | 0 <= i < |r|
        ensures r[i] != x
      {
        var i' := RemovedIndex(s, x, i);
        assert r[i] == s[i'] && s[k] == x;
      }
      forall i, j | 0 <= i < j < |r|
        ensures r[i] != r[j]
      {
        var i' := RemovedIndex(s, x, i);
        var j' := RemovedIndex(s, x, j);
        assert r[i] == s[i'] && r[j] == s[j'];
      }
    }
  }

  /** Where the i-th element left after removing `x` stood before: one further on past the removed slot. */
  lemma RemovedIndex<T>(s: seq<T>, x: T, i: nat) returns (i': nat)
    requires x in s && i < |RemoveElement(s, x)|
    ensures i' == if i < IndexOf(s, x) then i else i + 1
    ensures i' < |s| && i' != IndexOf(s, x) && RemoveElement(s, x)[i] == s[i']
  {
    var r, k := RemoveElement(s, x), IndexOf(s, x);
    if i < k {
      i' := i;
      assert r[i] == r[..k][i];
    } else {
      i' := i + 1;
      assert r[i] == r[k..][i - k];
    }
  }

  class Product {
    var id: Option<int>
    var name: Option<Bytes>
    var description: Option<Bytes>
    var price: Option<real>
    var stock: Option<int>
    var promoCodes: seq<PromoCode>

    constructor ()
      ensures promoCodes == []
      ensures id == None && name == None && description == None && price == None && stock == None
    {
      id, name, description, price, stock := None, None, None, None, None;
      promoCodes := [];
    }

    function GetId(): Option<int> reads this { id }
    function GetName(): Option<Bytes> reads this { name }
    function GetDescription(): Option<Bytes> reads this { description }
    function GetPrice(): Option<real> reads this { price }
    function GetStock(): Option<int> reads this { stock }
    function GetPromoCodes(): seq<PromoCode> reads this { promoCodes }

    /** The collection holds no PromoCode twice. */
    predicate NoDuplicates()
      reads this
    {
      Distinct(promoCodes)
    }

    /** Both sides of the association agree: every PromoCode in the collection points back here. */
    predicate Synced()
      reads this, promoCodes
    {
      forall p :: p in promoCodes ==> p.product == this
    }

    method SetName(name: Bytes) returns (self: Product)
      modifies this`name
      ensures GetName() == Some(name) && self == this
    {
      this.name := Some(name);
      self := this;
    }

    method SetDescription(description: Option<Bytes>) returns (self: Product)
      modifies this`description
      ensures GetDescription() == description && self == this
    {
      this.description := description;
      self := this;
    }

    method SetPrice(price: real) returns (self: Product)
      modifies this`price
      ensures GetPrice() == Some(price) && self == this
    {
      this.price := Some(price);
      self := this;
    }

    method SetStock(stock: int) returns (self: Product)
      modifies this`stock
      ensures GetStock() == Some(stock) && self == this
    {
      this.stock := Some(stock);
      self := this;
    }

    /**
     * Adds `promoCode` unless the collection already holds it, and then points it back here.
     * A PromoCode already held is left alone, so no PromoCode is ever held twice.
     */
    method AddPromoCode(promoCode: PromoCode) returns (self: Product)
      modifies this`promoCodes, promoCode`product
      ensures self == this && promoCode in promoCodes
      ensures old(promoCode in promoCodes) ==>
                promoCodes == old(promoCodes) && promoCode.product == old(promoCode.product)
      ensures old(promoCode !in promoCodes) ==>
                promoCodes == old(promoCodes) + [promoCode] && promoCode.product == this
      ensures old(NoDuplicates()) ==> NoDuplicates()
      ensures old(Synced()) ==> Synced() && promoCode.product == this
    {
      if promoCode !in promoCodes {
        promoCodes := promoCodes + [promoCode];
        var _ := promoCode.SetProduct(this);
      }
      self := this;
    }

    /**
     * Removes `promoCode` from the collection and, if it still points here, clears its back-pointer.
     * A PromoCode not held, or already pointing to another product, keeps its pointer.
     */
    method RemovePromoCode(promoCode: PromoCode) returns (self: Product)
      modifies this`promoCodes, promoCode`product
      ensures self == this
      ensures promoCodes == RemoveElement(old(promoCodes), promoCode)
      ensures old(promoCode !in promoCodes) ==> promoCode.product == old(promoCode.product)
      ensures old(promoCode in promoCodes) ==>
                promoCode.product == if old(promoCode.product) == this then null else old(promoCode.product)
      ensures old(NoDuplicates()) ==> NoDuplicates() && promoCode !in promoCodes
      ensures old(Synced() && NoDuplicates()) ==> Synced()
    {
      var removed := promoCode in promoCodes;
      if NoDuplicates() {
        RemoveElementDistinct(promoCodes, promoCode);
      }
      promoCodes := RemoveElement(promoCodes, promoCode);
      if removed {
        if promoCode.GetProduct() == this {
          var _ := promoCode.SetProduct(null);
        }
      }
      self := this;
    }
  }

  class PromoCode {
    var id: Option<int>
    var name: Option<Bytes>
    var pourcentage: Option<real>
    var dateExpiration: Option<Instant>
    var product: Product?
    var code: Option<Bytes>

    constructor ()
      ensures id == None && name == None && pourcentage == None && dateExpiration == None
      ensures product == null && code == None
    {
      id, name, pourcentage, dateExpiration, product, code := None, None, None, None, null, None;
    }

    function GetId(): Option<int> reads this { id }
    function GetName(): Option<Bytes> reads this { name }
    function GetPourcentage(): Option<real> reads this { pourcentage }
    function GetDateExpiration(): Option<Instant> reads this { dateExpiration }
    function GetProduct(): Product? reads this { product }
    function GetCode(): Option<Bytes> reads this { code }

    method SetName(name: Bytes) returns (self: PromoCode)
      modifies this`name
      ensures GetName() == Some(name) && self == this
    {
      this.name := Some(name);
      self := this;
    }

    method SetPourcentage(pourcentage: real) returns (self: PromoCode)
      modifies this`pourcentage
      ensures GetPourcentage() == Some(pourcentage) && self == this
    {
      this.pourcentage := Some(pourcentage);
      self := this;
    }

    method SetDateExpiration(dateExpiration: Instant) returns (self: PromoCode)
      modifies this`dateExpiration
      ensures GetDateExpiration() == Some(dateExpiration) && self == this
    {
      this.dateExpiration := Some(dateExpiration);
      self := this;
    }

    /** Only the back-pointer changes; no Product's collection is touched. */
    method SetProduct(product: Product?) returns (self: PromoCode)
      modifies this`product
      ensures GetProduct() == product && self == this
    {
      this.product := product;
      self := this;
    }

    method SetCode(code: Bytes) returns (self: PromoCode)
      modifies this`code
      ensures GetCode() == Some(code) && self == this
    {
      this.code := Some(code);
      self := this;
    }
  }
}
