/** Values (src/core/Value.ts): a whole number of grains of one commodity. The amount is not
    stored; it is recomputed from the grain each time it is asked for. */
module Values {
  import opened Wrappers
  import opened Numerals
  import opened Amounts
  import opened AmountText
  import opened Commodities

  /** `quantity` grains of `commodity`. */
  datatype Value = Value(quantity: int, commodity: Commodity)

  /** `ValueLike`: a value, an `{amount, commodity}` object, a `{quantity, commodity}` object
      (the shape `Balance` hands to `toValue`), or a string such as "12.5 USD". */
  datatype ValueLike =
    | Given(value: Value)
    | Pair(amount: AmountLike, commodity: CommodityLike)
    | Counted(quantity: int, counted: Commodity)
    | Described(text: string)

  const InvalidFormat := "The value string is in invalid format"

  /** The `amount` getter (src/core/Value.ts:15-17): the grain times the quantity, so it is
      written at the grain's exponent whatever amount the value was made from. */
  function AmountOf(v: Value): (r: Amount)
    ensures r.exponent == v.commodity.unit.exponent
    ensures Signed(r) == Signed(v.commodity.unit) * v.quantity
  {
    Multiply(v.commodity.unit, Count(v.quantity))
  }

  /** `toString` (src/core/Value.ts:19-21): the amount in scientific notation, a space, the
      commodity's name. */
  function ToString(v: Value): string {
    ToScientificString(AmountOf(v)) + " " + v.commodity.name
  }

  /** The constructor once the commodity is resolved (src/core/Value.ts:27-31): the quantity
      is the number of grains in the amount; an amount that is not a whole number of grains,
      or a zero grain, is refused. */
  function FromAmount(amount: AmountLike, c: Commodity): (r: Result<Value>)
    ensures r.Ok? <==> ToAmount(amount).Ok? && Signed(c.unit) != 0 && WholeGrains(ToAmount(amount).value, c.unit)
    ensures r.Ok? ==> r.value.commodity == c && SameValue(AmountOf(r.value), ToAmount(amount).value)
    ensures ToAmount(amount).Ok? && Signed(c.unit) == 0 ==> r == Err(RangeError(DivisionByZero))
  {
    var q :- Quantize(c, amount);
    Ok(Value(q, c))
  }

  /** The position of the first space. */
  function FirstSpace(s: string): (r: Option<nat>)
    ensures r.None? <==> ' ' !in s
    ensures r.Some? ==> r.value < |s| && s[r.value] == ' ' && ' ' !in s[..r.value]
  {
    if s == [] then None
    else if s[0] == ' ' then Some(0)
    else match FirstSpace(s[1..])
      case None => None
      case Some(i) =>
        assert s[..i + 1] == [s[0]] + s[1..][..i];
        Some(i + 1)
  }

  /** `value.split(' ', 2)` (src/core/Value.ts:40-42): the text before the first space and
      the text after it up to the next space; with no space the second part is missing. */
  function SplitValue(s: string): (r: Result<(string, string)>)
    ensures r.Err? <==> ' ' !in s
    ensures r.Err? ==> r == Err(RangeError(InvalidFormat))
    ensures r.Ok? ==> ' ' !in r.value.0 && ' ' !in r.value.1
  {
    match FirstSpace(s)
    case None => Err(RangeError(InvalidFormat))
    case Some(i) =>
      var rest := s[i + 1..];
      var name := match FirstSpace(rest) case None => rest case Some(j) => rest[..j];
      Ok((s[..i], name))
  }

  /** The first space of `a + " " + t` is the one after `a` when `a` has none. */
  lemma FirstSpaceAfter(a: string, t: string)
    requires ' ' !in a
    ensures FirstSpace(a + " " + t) == Some(|a|)
  {
    var s := a + " " + t;
    assert s[|a|] == ' ';
    assert forall j :: 0 <= j < |a| ==> s[j] == a[j];
  }

  /** Two space-free parts joined by a space come apart again, and anything after a further
      space is dropped. */
  lemma SplitJoined(a: string, n: string, rest: string)
    requires ' ' !in a && ' ' !in n && (rest == [] || rest[0] == ' ')
    ensures SplitValue(a + " " + n + rest) == Ok((a, n))
  {
    var s := a + " " + n + rest;
    assert s == a + " " + (n + rest);
    FirstSpaceAfter(a, n + rest);
    assert s[..|a|] == a;
    var tail := s[|a| + 1..];
    assert tail == n + rest;
    if rest == [] {
      assert tail == n;
    } else {
      assert n + rest == n + " " + rest[1..];
      FirstSpaceAfter(n, rest[1..]);
      assert tail[..|n|] == n;
    }
  }

  /** `fromString` (src/core/Value.ts:39-44) over a given registry state: split, resolve the
      name, then count the grains. */
  function FromText(cache: map<string, Commodity>, test: Matcher, rules: seq<Rule>, s: string): Result<Value> {
    var parts :- SplitValue(s);
    Constructed(cache, test, rules, Text(parts.0), ByName(parts.1))
  }

  /** `toValue` (src/core/Value.ts:33-37) over a given registry state. */
  function ToValueIn(cache: map<string, Commodity>, test: Matcher, rules: seq<Rule>, v: ValueLike): Result<Value> {
    match v
    case Given(x) => Ok(x)
    case Counted(q, c) => Ok(Value(q, c))
    case Pair(amount, commodity) => Constructed(cache, test, rules, amount, commodity)
    case Described(s) => FromText(cache, test, rules, s)
  }

  /** The constructor over a given registry state: resolve the commodity, count the grains. */
  function Constructed(cache: map<string, Commodity>, test: Matcher, rules: seq<Rule>, amount: AmountLike,
                       commodity: CommodityLike): Result<Value> {
    var c :- Resolve(cache, test, rules, commodity);
    FromAmount(amount, c)
  }

  /** The commodity cache after `toValue`: a name resolved on the way is added. */
  function CacheAfter(cache: map<string, Commodity>, test: Matcher, rules: seq<Rule>, v: ValueLike): map<string, Commodity> {
    match v
    case Pair(_, commodity) => CachedFor(cache, commodity, Resolve(cache, test, rules, commodity))
    case Described(s) =>
      (match SplitValue(s)
       case Ok(parts) => Cached(cache, parts.1, Lookup(cache, test, rules, parts.1))
       case Err(_) => cache)
    case _ => cache
  }

  /** As written, `Balance.get` and `Balance.values` (src/core/Balance.ts:10, 17) hand `toValue`
      an object with a `quantity` and no `amount`; the constructor quantizes its `amount`,
      `undefined`, and fails with a TypeError whatever the quantity. The intended value of that
      object, `Counted`, is the quantity in the commodity. */
  lemma QuantityObjectAsWritten(cache: map<string, Commodity>, test: Matcher, rules: seq<Rule>, q: int, c: Commodity)
    ensures ToValueIn(cache, test, rules, Pair(Missing, Instance(c))) == Err(TypeError(UndefinedAmount))
    ensures ToValueIn(cache, test, rules, Counted(q, c)) == Ok(Value(q, c))
  {
  }

  /** A space-free scientific numeral: the printed amount never contains a space. */
  lemma ScientificHasNoSpace(a: Amount)
    ensures ' ' !in ToScientificString(a)
  {
    var s := ToScientificString(a);
    SciRender(a);
    RenderChars(SciNumeral(a));
    forall i | 0 <= i < |s|
      ensures s[i] != ' '
    {
      assert NumeralChar(s[i]);
    }
  }

  /** Printing a value and reading it back gives the same value, when its commodity's name has
      no space, its grain is not zero and the name resolves to that commodity. */
  lemma TextRoundTrip(cache: map<string, Commodity>, test: Matcher, rules: seq<Rule>, v: Value)
    requires ' ' !in v.commodity.name && Signed(v.commodity.unit) != 0
    requires v.commodity.name in cache && cache[v.commodity.name] == v.commodity
    ensures FromText(cache, test, rules, ToString(v)) == Ok(v)
  {
    var a := AmountOf(v);
    var sci := ToScientificString(a);
    ScientificHasNoSpace(a);
    SplitJoined(sci, v.commodity.name, "");
    assert ToString(v) == sci + " " + v.commodity.name + "";
    ScientificRoundTrip(a);
    GrainsCount(v.commodity.unit, a, v.quantity);
  }

  /** The printed amount of a value, with the name of its commodity, constructs the value
      again, when the grain is not zero and the name resolves to that commodity. */
  lemma ScientificConstructs(cache: map<string, Commodity>, test: Matcher, rules: seq<Rule>, v: Value)
    requires Signed(v.commodity.unit) != 0
    requires v.commodity.name in cache && cache[v.commodity.name] == v.commodity
    ensures Constructed(cache, test, rules, Text(ToScientificString(AmountOf(v))), ByName(v.commodity.name)) == Ok(v)
  {
    var a := AmountOf(v);
    ScientificRoundTrip(a);
    assert ToAmount(Text(ToScientificString(a))) == Ok(a);
    GrainsCount(v.commodity.unit, a, v.quantity);
    assert Lookup(cache, test, rules, v.commodity.name) == Ok(v.commodity);
  }

  /** A value string is read as the amount before the space, counted in grains of the
      commodity the name after it resolves to. */
  lemma FromTextCounts(cache: map<string, Commodity>, test: Matcher, rules: seq<Rule>, s: string)
    requires FromText(cache, test, rules, s).Ok?
    ensures var v := FromText(cache, test, rules, s).value;
            var parts := SplitValue(s).value;
            && Lookup(cache, test, rules, parts.1) == Ok(v.commodity)
            && FromString(parts.0).Ok?
            && SameValue(AmountOf(v), FromString(parts.0).value)
  {
    var parts := SplitValue(s).value;
    var c := Lookup(cache, test, rules, parts.1).value;
    assert FromText(cache, test, rules, s) == FromAmount(Text(parts.0), c);
  }

  /** The Value constructor (src/core/Value.ts:27-31): resolves the commodity through the
      registry, then counts the grains. */
  method NewValue(reg: Registry, amount: AmountLike, commodity: CommodityLike) returns (r: Result<Value>)
    requires reg.Valid()
    modifies reg
    ensures reg.Valid() && reg.units == old(reg.units)
    ensures r == Constructed(old(reg.instances), reg.test, reg.units, amount, commodity)
    ensures reg.instances == CachedFor(old(reg.instances), commodity, Resolve(old(reg.instances), reg.test, reg.units, commodity))
  {
    var c := reg.ToCommodity(commodity);
    match c
    case Err(e) =>
      r := Err(e);
    case Ok(cm) =>
      assert Resolve(old(reg.instances), reg.test, reg.units, commodity) == Ok(cm);
      r := FromAmount(amount, cm);
  }

  /** `toValue` (src/core/Value.ts:33-44): a value is returned as it is, an object goes
      through the constructor, a string is split first. */
  method ToValue(reg: Registry, v: ValueLike) returns (r: Result<Value>)
    requires reg.Valid()
    modifies reg
    ensures reg.Valid() && reg.units == old(reg.units)
    ensures r == ToValueIn(old(reg.instances), reg.test, reg.units, v)
    ensures reg.instances == CacheAfter(old(reg.instances), reg.test, reg.units, v)
    ensures v.Given? ==> r == Ok(v.value)
  {
    match v
    case Given(x) =>
      r := Ok(x);
    case Counted(q, c) =>
      r := Ok(Value(q, c));
    case Pair(amount, commodity) =>
      r := NewValue(reg, amount, commodity);
    case Described(s) =>
      var parts := SplitValue(s);
      if parts.Err? {
        return Err(parts.error);
      }
      r := NewValue(reg, Text(parts.value.0), ByName(parts.value.1));
  }
}
