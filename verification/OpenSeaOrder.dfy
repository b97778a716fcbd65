/** Seaport order components as a request body carries them: parsed with every
    field checked, and printed again for the marketplace. */
module OpenSeaOrder {
  import opened Wrappers

  /** A parsed JSON value. */
  datatype Json = Null | Bool(b: bool) | Num(n: real) | Str(s: string) | Arr(items: seq<Json>) | Obj(fields: map<string, Json>)

  const MAX_ITEM_TYPE := 5
  const MAX_ORDER_TYPE := 4
  const MAX_ITEMS := 32
  const MAX_DIGITS := 78

  datatype OfferItem = OfferItem(itemType: nat, token: string, identifier: nat, startAmount: nat, endAmount: nat)

  datatype ConsiderationItem = ConsiderationItem(item: OfferItem, recipient: string)

  datatype Components = Components(
    offerer: string, zone: string, offer: seq<OfferItem>, consideration: seq<ConsiderationItem>, orderType: nat,
    startTime: nat, endTime: nat, zoneHash: string, salt: nat, conduitKey: string, counter: nat)

  // ------------------------------------------------------------- digits

  predicate IsDigit(c: char) { '0' <= c <= '9' }

  function DigitOf(n: nat): (c: char)
    requires n < 10
    ensures IsDigit(c)
  {
    '0' + n as char
  }

  function Decimal(n: nat): string { if n < 10 then [DigitOf(n)] else Decimal(n / 10) + [DigitOf(n % 10)] }

  function DigitValue(c: char): (n: nat)
    requires IsDigit(c)
    ensures n < 10 && DigitOf(n) == c
  {
    c as nat - '0' as nat
  }

  function ValueOf(s: string): nat
    requires forall i :: 0 <= i < |s| ==> IsDigit(s[i])
  {
    if s == "" then 0 else 10 * ValueOf(s[..|s| - 1]) + DigitValue(s[|s| - 1])
  }

  /** `^(0|[1-9][0-9]{0,77})$` */
  predicate IsUint(s: string) {
    && 0 < |s| <= MAX_DIGITS && (forall i :: 0 <= i < |s| ==> IsDigit(s[i]))
    && (s[0] == '0' ==> |s| == 1)
  }

  function Power(n: nat): (r: nat)
    ensures r > 0
  {
    if n == 0 then 1 else 10 * Power(n - 1)
  }

  lemma {:induction false} DecimalReadsBack(n: nat)
    ensures forall i :: 0 <= i < |Decimal(n)| ==> IsDigit(Decimal(n)[i])
    ensures ValueOf(Decimal(n)) == n && |Decimal(n)| > 0
    ensures n > 0 ==> Decimal(n)[0] != '0'
    ensures n == 0 ==> Decimal(n) == "0"
    decreases n
  {
    if n >= 10 {
      DecimalReadsBack(n / 10);
      assert Decimal(n)[..|Decimal(n)| - 1] == Decimal(n / 10);
    } else {
      assert Decimal(n)[..0] == "";
    }
  }

  /** A canonical decimal string is the one its value prints as. */
  lemma {:induction false} ValuePrintsBack(s: string)
    requires |s| > 0 && (forall i :: 0 <= i < |s| ==> IsDigit(s[i])) && (s[0] == '0' ==> |s| == 1)
    ensures Decimal(ValueOf(s)) == s
    ensures s[0] != '0' ==> ValueOf(s) > 0
    decreases |s|
  {
    var init, last := s[..|s| - 1], s[|s| - 1];
    assert s == init + [last];
    if init == "" {
      assert s[..0] == "" && ValueOf("") == 0;
      assert ValueOf(s) == DigitValue(last);
    } else {
      ValuePrintsBack(init);
      assert ValueOf(s) / 10 == ValueOf(init) && ValueOf(s) % 10 == DigitValue(last);
    }
  }

  /** 78 digits hold exactly the numbers below 10 to the 78. */
  lemma {:induction false} DigitsBelow(n: nat, k: nat)
    requires k > 0
    ensures |Decimal(n)| <= k <==> n < Power(k)
    decreases k
  {
    if n < 10 {
      SmallPower(k);
    } else if k == 1 {
      DecimalReadsBack(n / 10);
    } else {
      DigitsBelow(n / 10, k - 1);
      assert n / 10 < Power(k - 1) <==> n < 10 * Power(k - 1);
    }
  }

  lemma {:induction false} SmallPower(k: nat)
    requires k > 0
    ensures Power(k) >= 10
    decreases k
  {
    if k > 1 { SmallPower(k - 1); }
  }

  // ------------------------------------------------------------- parsing

  function Field(j: Json, name: string): Json {
    if j.Obj? && name in j.fields then j.fields[name] else Null
  }

  function SmallInt(j: Json, max: nat): Option<nat> {
    if j.Num? && j.n == j.n.Floor as real && 0.0 <= j.n <= max as real then Some(j.n.Floor) else None
  }

  function Uint(j: Json): Option<nat> { if j.Str? && IsUint(j.s) then Some(ValueOf(j.s)) else None }

  predicate IsHex(c: char) { IsDigit(c) || 'a' <= c <= 'f' || 'A' <= c <= 'F' }

  predicate IsHexString(s: string, digits: nat) {
    |s| == digits + 2 && s[0] == '0' && s[1] == 'x' && forall i :: 2 <= i < |s| ==> IsHex(s[i])
  }

  function HexOf(j: Json, digits: nat): Option<string> {
    if j.Str? && IsHexString(j.s, digits) then Some(j.s) else None
  }

  function ParseItem(j: Json): Option<OfferItem> {
    var itemType, token := SmallInt(Field(j, "itemType"), MAX_ITEM_TYPE), HexOf(Field(j, "token"), 40);
    var id, first, last := Uint(Field(j, "identifierOrCriteria")), Uint(Field(j, "startAmount")), Uint(Field(j, "endAmount"));
    if itemType.None? || token.None? || id.None? || first.None? || last.None? then None
    else Some(OfferItem(itemType.value, token.value, id.value, first.value, last.value))
  }

  function ParseConsideration(j: Json): Option<ConsiderationItem> {
    var base, recipient := ParseItem(j), HexOf(Field(j, "recipient"), 40);
    if base.None? || recipient.None? then None else Some(ConsiderationItem(base.value, recipient.value))
  }

  function AllItems<T>(items: seq<Json>, each: Json -> Option<T>): (r: Option<seq<T>>)
    ensures r.Some? <==> forall i :: 0 <= i < |items| ==> each(items[i]).Some?
    ensures r.Some? ==> |r.value| == |items| && forall i :: 0 <= i < |items| ==> each(items[i]) == Some(r.value[i])
  {
    if items == [] then Some([])
    else
      var first, rest := each(items[0]), AllItems(items[1..], each);
      if first.None? || rest.None? then None
      else
        assert forall i :: 1 <= i < |items| ==> items[i] == items[1..][i - 1];
        Some([first.value] + rest.value)
  }

  function ParseItems<T>(j: Json, each: Json -> Option<T>): Option<seq<T>> {
    if j.Arr? && 0 < |j.items| <= MAX_ITEMS then AllItems(j.items, each) else None
  }

  /** The loop of the list parser: one item after the other, stopping at the
      first that does not parse. */
  method Items<T>(j: Json, each: Json -> Option<T>) returns (r: Option<seq<T>>)
    ensures r == ParseItems(j, each)
  {
    if !j.Arr? || j.items == [] || |j.items| > MAX_ITEMS { return None; }
    var out: seq<T> := [];
    for i := 0 to |j.items|
      invariant |out| == i && forall k :: 0 <= k < i ==> each(j.items[k]) == Some(out[k])
      invariant AllItems(j.items, each).Some? ==> out == AllItems(j.items, each).value[..i]
    {
      var parsed := each(j.items[i]);
      if parsed.None? { return None; }
      out := out + [parsed.value];
    }
    var all := AllItems(j.items, each);
    assert all.Some? && all.value[..|j.items|] == all.value;
    r := Some(out);
  }

  function Parse(j: Json): Option<Components> {
    var offerer, zone := HexOf(Field(j, "offerer"), 40), HexOf(Field(j, "zone"), 40);
    var offer, consideration := ParseItems(Field(j, "offer"), ParseItem), ParseItems(Field(j, "consideration"), ParseConsideration);
    var orderType, start, end := SmallInt(Field(j, "orderType"), MAX_ORDER_TYPE), Uint(Field(j, "startTime")), Uint(Field(j, "endTime"));
    var zoneHash, salt := HexOf(Field(j, "zoneHash"), 64), Uint(Field(j, "salt"));
    var conduitKey, counter := HexOf(Field(j, "conduitKey"), 64), Uint(Field(j, "counter"));
    if offerer.None? || zone.None? || offer.None? || consideration.None? || orderType.None? || start.None? || end.None?
       || zoneHash.None? || salt.None? || conduitKey.None? || counter.None?
    then None
    else Some(Components(offerer.value, zone.value, offer.value, consideration.value, orderType.value, start.value,
                         end.value, zoneHash.value, salt.value, conduitKey.value, counter.value))
  }

  // ------------------------------------------------------------ printing

  function PrintUint(n: nat): Json { Str(Decimal(n)) }

  function PrintItem(i: OfferItem): Json {
    Obj(map["itemType" := Num(i.itemType as real), "token" := Str(i.token), "identifierOrCriteria" := PrintUint(i.identifier),
            "startAmount" := PrintUint(i.startAmount), "endAmount" := PrintUint(i.endAmount)])
  }

  function PrintConsideration(i: ConsiderationItem): Json {
    Obj(PrintItem(i.item).fields["recipient" := Str(i.recipient)])
  }

  function PrintAll<T>(items: seq<T>, each: T -> Json): (r: seq<Json>)
    ensures |r| == |items| && forall i :: 0 <= i < |items| ==> r[i] == each(items[i])
  {
    seq(|items|, i requires 0 <= i < |items| => each(items[i]))
  }

  function Print(c: Components): Json {
    Obj(map["offerer" := Str(c.offerer), "zone" := Str(c.zone), "offer" := Arr(PrintAll(c.offer, PrintItem)),
            "consideration" := Arr(PrintAll(c.consideration, PrintConsideration)),
            "orderType" := Num(c.orderType as real), "startTime" := PrintUint(c.startTime), "endTime" := PrintUint(c.endTime),
            "zoneHash" := Str(c.zoneHash), "salt" := PrintUint(c.salt), "conduitKey" := Str(c.conduitKey),
            "counter" := PrintUint(c.counter), "totalOriginalConsiderationItems" := Num(|c.consideration| as real)])
  }

  // --------------------------------------------------------- round trips

  predicate FitsUint(n: nat) { n < Power(MAX_DIGITS) }

  predicate GoodItem(i: OfferItem) {
    i.itemType <= MAX_ITEM_TYPE && IsHexString(i.token, 40) && FitsUint(i.identifier) && FitsUint(i.startAmount) && FitsUint(i.endAmount)
  }

  predicate GoodConsideration(i: ConsiderationItem) { GoodItem(i.item) && IsHexString(i.recipient, 40) }

  /** The components the parser can return. */
  predicate Good(c: Components) {
    && IsHexString(c.offerer, 40) && IsHexString(c.zone, 40) && c.orderType <= MAX_ORDER_TYPE
    && 0 < |c.offer| <= MAX_ITEMS && (forall i :: 0 <= i < |c.offer| ==> GoodItem(c.offer[i]))
    && 0 < |c.consideration| <= MAX_ITEMS && (forall i :: 0 <= i < |c.consideration| ==> GoodConsideration(c.consideration[i]))
    && FitsUint(c.startTime) && FitsUint(c.endTime) && FitsUint(c.salt) && FitsUint(c.counter)
    && IsHexString(c.zoneHash, 64) && IsHexString(c.conduitKey, 64)
  }

  /** A number printed and read again, exactly up to 78 digits. */
  lemma UintReadsBack(n: nat)
    ensures Uint(PrintUint(n)) == if FitsUint(n) then Some(n) else None
  {
    DecimalReadsBack(n);
    DigitsBelow(n, MAX_DIGITS);
  }

  lemma UintPrintsBack(j: Json)
    requires Uint(j).Some?
    ensures FitsUint(Uint(j).value) && PrintUint(Uint(j).value) == j
  {
    ValuePrintsBack(j.s);
    DigitsBelow(ValueOf(j.s), MAX_DIGITS);
  }

  lemma ItemReadsBack(i: OfferItem)
    requires GoodItem(i)
    ensures ParseItem(PrintItem(i)) == Some(i)
  {
    UintReadsBack(i.identifier);
    UintReadsBack(i.startAmount);
    UintReadsBack(i.endAmount);
  }

  lemma ConsiderationReadsBack(i: ConsiderationItem)
    requires GoodConsideration(i)
    ensures ParseConsideration(PrintConsideration(i)) == Some(i)
  {
    ItemReadsBack(i.item);
    var j := PrintConsideration(i);
    SameFields(j, PrintItem(i.item));
  }

  lemma SameFields(j: Json, k: Json)
    requires Field(j, "itemType") == Field(k, "itemType") && Field(j, "token") == Field(k, "token")
    requires Field(j, "identifierOrCriteria") == Field(k, "identifierOrCriteria")
    requires Field(j, "startAmount") == Field(k, "startAmount") && Field(j, "endAmount") == Field(k, "endAmount")
    ensures ParseItem(j) == ParseItem(k)
  {
  }

  lemma OfferReadsBack(c: Components)
    requires Good(c)
    ensures ParseItems(Arr(PrintAll(c.offer, PrintItem)), ParseItem) == Some(c.offer)
  {
    var j := PrintAll(c.offer, PrintItem);
    forall i | 0 <= i < |j| ensures ParseItem(j[i]) == Some(c.offer[i]) { ItemReadsBack(c.offer[i]); }
    assert AllItems(j, ParseItem).Some? && AllItems(j, ParseItem).value == c.offer;
  }

  lemma ConsiderationsReadBack(c: Components)
    requires Good(c)
    ensures ParseItems(Arr(PrintAll(c.consideration, PrintConsideration)), ParseConsideration) == Some(c.consideration)
  {
    var j := PrintAll(c.consideration, PrintConsideration);
    forall i | 0 <= i < |j| ensures ParseConsideration(j[i]) == Some(c.consideration[i]) {
      ConsiderationReadsBack(c.consideration[i]);
    }
    assert AllItems(j, ParseConsideration).Some? && AllItems(j, ParseConsideration).value == c.consideration;
  }

  /** Field by field, the body that prints as `c`. */
  predicate Fields(j: Json, c: Components) {
    && Field(j, "offerer") == Str(c.offerer) && Field(j, "zone") == Str(c.zone)
    && Field(j, "orderType") == Num(c.orderType as real)
    && Field(j, "startTime") == PrintUint(c.startTime) && Field(j, "endTime") == PrintUint(c.endTime)
    && Field(j, "zoneHash") == Str(c.zoneHash) && Field(j, "salt") == PrintUint(c.salt)
    && Field(j, "conduitKey") == Str(c.conduitKey) && Field(j, "counter") == PrintUint(c.counter)
  }

  lemma PrintHasFields(c: Components)
    ensures Fields(Print(c), c)
    ensures Field(Print(c), "offer") == Arr(PrintAll(c.offer, PrintItem))
    ensures Field(Print(c), "consideration") == Arr(PrintAll(c.consideration, PrintConsideration))
    ensures Field(Print(c), "totalOriginalConsiderationItems") == Num(|c.consideration| as real)
  {
  }

  lemma FieldsParse(j: Json, c: Components)
    requires Good(c) && Fields(j, c)
    requires ParseItems(Field(j, "offer"), ParseItem) == Some(c.offer)
    requires ParseItems(Field(j, "consideration"), ParseConsideration) == Some(c.consideration)
    ensures Parse(j) == Some(c)
  {
    UintReadsBack(c.startTime);
    UintReadsBack(c.endTime);
    UintReadsBack(c.salt);
    UintReadsBack(c.counter);
  }

  /** What the parser returns, printed and parsed again, is the same. */
  lemma ParseOfPrint(c: Components)
    requires Good(c)
    ensures Parse(Print(c)) == Some(c)
  {
    PrintHasFields(c);
    OfferReadsBack(c);
    ConsiderationsReadBack(c);
    FieldsParse(Print(c), c);
  }

  lemma ParsedItemIsGood(j: Json)
    requires ParseItem(j).Some?
    ensures GoodItem(ParseItem(j).value) && SameItem(j, PrintItem(ParseItem(j).value))
  {
    UintPrintsBack(Field(j, "identifierOrCriteria"));
    UintPrintsBack(Field(j, "startAmount"));
    UintPrintsBack(Field(j, "endAmount"));
  }

  /** The hashed fields of an item agree. */
  predicate SameItem(j: Json, k: Json) {
    && Field(j, "itemType") == Field(k, "itemType") && Field(j, "token") == Field(k, "token")
    && Field(j, "identifierOrCriteria") == Field(k, "identifierOrCriteria")
    && Field(j, "startAmount") == Field(k, "startAmount") && Field(j, "endAmount") == Field(k, "endAmount")
  }

  predicate SameConsideration(j: Json, k: Json) { SameItem(j, k) && Field(j, "recipient") == Field(k, "recipient") }

  /** The hashed fields of two bodies agree. */
  predicate SameHashed(j: Json, k: Json) {
    && Field(j, "offerer") == Field(k, "offerer") && Field(j, "zone") == Field(k, "zone")
    && Field(j, "orderType") == Field(k, "orderType") && Field(j, "startTime") == Field(k, "startTime")
    && Field(j, "endTime") == Field(k, "endTime") && Field(j, "zoneHash") == Field(k, "zoneHash")
    && Field(j, "salt") == Field(k, "salt") && Field(j, "conduitKey") == Field(k, "conduitKey")
    && Field(j, "counter") == Field(k, "counter")
    && SameOffers(Field(j, "offer"), Field(k, "offer"))
    && SameConsiderations(Field(j, "consideration"), Field(k, "consideration"))
  }

  predicate SameOffers(j: Json, k: Json) {
    j.Arr? && k.Arr? && |j.items| == |k.items| && forall i :: 0 <= i < |j.items| ==> SameItem(j.items[i], k.items[i])
  }

  predicate SameConsiderations(j: Json, k: Json) {
    j.Arr? && k.Arr? && |j.items| == |k.items| && forall i :: 0 <= i < |j.items| ==> SameConsideration(j.items[i], k.items[i])
  }

  lemma OffersPrintBack(j: Json, offer: seq<OfferItem>)
    requires ParseItems(j, ParseItem) == Some(offer)
    ensures SameOffers(j, Arr(PrintAll(offer, PrintItem)))
    ensures 0 < |offer| <= MAX_ITEMS && forall i :: 0 <= i < |offer| ==> GoodItem(offer[i])
  {
    forall i | 0 <= i < |offer| ensures GoodItem(offer[i]) && SameItem(j.items[i], PrintItem(offer[i])) {
      assert ParseItem(j.items[i]) == Some(offer[i]);
      ParsedItemIsGood(j.items[i]);
    }
  }

  lemma ConsiderationsPrintBack(j: Json, legs: seq<ConsiderationItem>)
    requires ParseItems(j, ParseConsideration) == Some(legs)
    ensures SameConsiderations(j, Arr(PrintAll(legs, PrintConsideration)))
    ensures 0 < |legs| <= MAX_ITEMS && forall i :: 0 <= i < |legs| ==> GoodConsideration(legs[i])
  {
    forall i | 0 <= i < |legs|
      ensures GoodConsideration(legs[i]) && SameConsideration(j.items[i], PrintConsideration(legs[i]))
    {
      assert ParseConsideration(j.items[i]) == Some(legs[i]);
      ParsedLegIsGood(j.items[i]);
    }
  }

  lemma ParsedLegIsGood(j: Json)
    requires ParseConsideration(j).Some?
    ensures GoodConsideration(ParseConsideration(j).value)
    ensures SameConsideration(j, PrintConsideration(ParseConsideration(j).value))
  {
    ParsedItemIsGood(j);
  }

  lemma ParsedHasFields(j: Json)
    requires Parse(j).Some?
    ensures var c := Parse(j).value;
      && Fields(j, c) && c.orderType <= MAX_ORDER_TYPE
      && IsHexString(c.offerer, 40) && IsHexString(c.zone, 40) && IsHexString(c.zoneHash, 64) && IsHexString(c.conduitKey, 64)
      && FitsUint(c.startTime) && FitsUint(c.endTime) && FitsUint(c.salt) && FitsUint(c.counter)
      && ParseItems(Field(j, "offer"), ParseItem) == Some(c.offer)
      && ParseItems(Field(j, "consideration"), ParseConsideration) == Some(c.consideration)
  {
    UintPrintsBack(Field(j, "startTime"));
    UintPrintsBack(Field(j, "endTime"));
    UintPrintsBack(Field(j, "salt"));
    UintPrintsBack(Field(j, "counter"));
  }

  /** What is accepted is printed with the hashed fields it came with, decimal
      strings of up to 78 digits included, and is always good. */
  lemma PrintOfParse(j: Json)
    requires Parse(j).Some?
    ensures Good(Parse(j).value) && SameHashed(j, Print(Parse(j).value))
    ensures Field(Print(Parse(j).value), "totalOriginalConsiderationItems") == Num(|Parse(j).value.consideration| as real)
  {
    var c := Parse(j).value;
    ParsedHasFields(j);
    PrintHasFields(c);
    OffersPrintBack(Field(j, "offer"), c.offer);
    ConsiderationsPrintBack(Field(j, "consideration"), c.consideration);
  }
}
