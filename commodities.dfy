/** The commodity registry (src/core/Commodity.ts). The source keeps two static fields, an
    ordered list of grain rules and a cache of resolved commodities; the model keeps them in one
    `Registry` object. A commodity's grain (`unit`) is the amount one counted unit stands for,
    and `quantize` counts how many grains make up an amount. */
module Commodities {
  import opened Wrappers
  import opened Digits
  import opened Amounts
  import opened AmountText

  /** A commodity and its grain. */
  datatype Commodity = Commodity(name: string, unit: Amount)

  /** `CommodityLike`: a commodity, or the name of one. */
  datatype CommodityLike = ByName(name: string) | Instance(commodity: Commodity)

  /** The two ways `importUnits` compiles a pattern: a picomatch glob (with `dot: true`) or the
      regular expression `^pattern$`. */
  datatype MatchMode = Glob | RegExp

  /** One entry of `units`: a compiled pattern and the grain of the names it matches. */
  datatype Rule = Rule(mode: MatchMode, pattern: string, unit: Amount)

  /** `re.test(name)` for a pattern compiled in the given mode. Compiling and matching belong
      to picomatch and RegExp, so the registry is handed this test. */
  type Matcher = (MatchMode, string, string) -> bool

  predicate Fits(test: Matcher, rule: Rule, name: string) {
    test(rule.mode, rule.pattern, name)
  }

  const DuplicateName := "Duplicated instances for the same commodity name"
  const NoMatch := "No pattern match in the base matches the given name"
  const DivisionByZero := "Division by zero"

  /** An integer as `toAmount` reads a bigint: that coefficient at exponent 0. */
  function Count(n: int): (r: Amount)
    ensures Signed(r) == n && r.exponent == 0
  {
    ToAmount(Integer(n)).value
  }

  // Importing rules

  /** The rule `importUnits` builds from one `[pattern, candidate]` entry. */
  function RuleFor(entry: (string, AmountLike), mode: MatchMode): Result<Rule> {
    var u :- ToAmount(entry.1);
    Ok(Rule(mode, entry.0, u))
  }

  /** The rule of every entry, in order. */
  function RulesOf(entries: seq<(string, AmountLike)>, mode: MatchMode): (rs: seq<Result<Rule>>)
    ensures |rs| == |entries|
    ensures forall i :: 0 <= i < |entries| ==> rs[i] == RuleFor(entries[i], mode)
  {
    seq(|entries|, i requires 0 <= i < |entries| => RuleFor(entries[i], mode))
  }

  /** The loop of `importUnits` (src/core/Commodity.ts:48-51) from the rule list `rules` on,
      given the rule each remaining entry yields: each is put in front, and the first entry
      that yields an error stops the loop with it, leaving the rules added before in place. */
  function ImportFrom(rules: seq<Rule>, rest: seq<Result<Rule>>): (seq<Rule>, Outcome)
    decreases |rest|
  {
    if rest == [] then (rules, Pass)
    else match rest[0]
      case Err(e) => (rules, Fail(e))
      case Ok(rule) => ImportFrom([rule] + rules, rest[1..])
  }

  /** One turn of the import loop. */
  lemma ImportStep(rules: seq<Rule>, rest: seq<Result<Rule>>, i: nat)
    requires i <= |rest|
    ensures i == |rest| ==> ImportFrom(rules, rest[i..]) == (rules, Pass)
    ensures i < |rest| && rest[i].Err? ==> ImportFrom(rules, rest[i..]) == (rules, Fail(rest[i].error))
    ensures i < |rest| && rest[i].Ok? ==> ImportFrom(rules, rest[i..]) == ImportFrom([rest[i].value] + rules, rest[i + 1..])
  {
    if i < |rest| {
      assert rest[i..][0] == rest[i] && rest[i..][1..] == rest[i + 1..];
    }
  }

  /** The rule list and outcome of `importUnits(entries, mode)`: the list is emptied first. */
  function Imported(entries: seq<(string, AmountLike)>, mode: MatchMode): (seq<Rule>, Outcome) {
    ImportFrom([], RulesOf(entries, mode))
  }

  /** The position of the first error, or |rest|. */
  function FirstBad(rest: seq<Result<Rule>>): (k: nat)
    ensures k <= |rest|
    ensures forall j :: 0 <= j < k ==> rest[j].Ok?
    ensures k < |rest| ==> rest[k].Err?
  {
    if rest == [] || rest[0].Err? then 0
    else 1 + FirstBad(rest[1..])
  }

  /** Importing from `acc` puts the rules before the first error in front of `acc`, last one
      first, and fails exactly when there is an error, with that error. */
  lemma {:induction false} ImportFromShape(acc: seq<Rule>, rest: seq<Result<Rule>>)
    ensures var (rs, out) := ImportFrom(acc, rest);
            var k := FirstBad(rest);
            && (out.Pass? <==> k == |rest|)
            && (out.Fail? ==> out.error == rest[k].error)
            && |rs| == k + |acc| && rs[k..] == acc
            && forall i :: 0 <= i < k ==> rs[i] == rest[k - 1 - i].value
    decreases |rest|
  {
    if rest != [] && rest[0].Ok? {
      var rule := rest[0].value;
      ImportFromShape([rule] + acc, rest[1..]);
      var k := FirstBad(rest);
      var rs := ImportFrom(acc, rest).0;
      assert FirstBad(rest[1..]) == k - 1;
      assert rs[k - 1..] == [rule] + acc;
      assert rs[k..] == ([rule] + acc)[1..];
      forall i | 0 <= i < k
        ensures rs[i] == rest[k - 1 - i].value
      {
        if i < k - 1 {
          assert rest[1..][k - 1 - 1 - i] == rest[k - 1 - i];
        } else {
          assert rs[i] == rs[k - 1..][0];
        }
      }
    }
  }

  /** `importUnits` (src/core/Commodity.ts:45-52): after an import the rule list holds, last
      entry first, the rules of the entries before the first one whose candidate is not an
      amount; the import succeeds exactly when there is no such entry, and otherwise fails with
      that candidate's error. */
  lemma ImportedRules(entries: seq<(string, AmountLike)>, mode: MatchMode)
    ensures var (rs, out) := Imported(entries, mode);
            var k := FirstBad(RulesOf(entries, mode));
            && (out.Pass? <==> forall j :: 0 <= j < |entries| ==> RuleFor(entries[j], mode).Ok?)
            && (out.Fail? ==> out.error == RuleFor(entries[k], mode).error)
            && |rs| == k
            && forall i :: 0 <= i < k ==> rs[i] == RuleFor(entries[k - 1 - i], mode).value
  {
    ImportFromShape([], RulesOf(entries, mode));
  }

  // Looking a grain up

  /** The position of the first rule that fits `name`. */
  function FirstMatchAt(test: Matcher, rules: seq<Rule>, name: string): (r: Option<nat>)
    ensures r.Some? ==> r.value < |rules| && Fits(test, rules[r.value], name)
    ensures forall j :: 0 <= j < |rules| && (r.None? || j < r.value) ==> !Fits(test, rules[j], name)
  {
    if rules == [] then None
    else if Fits(test, rules[0], name) then Some(0)
    else match FirstMatchAt(test, rules[1..], name)
      case None => None
      case Some(i) => Some(i + 1)
  }

  /** The grain `getUnitFromName` finds in the rule list `rules`. */
  function FirstMatch(test: Matcher, rules: seq<Rule>, name: string): (r: Result<Amount>)
    ensures r.Ok? <==> exists i :: 0 <= i < |rules| && Fits(test, rules[i], name)
    ensures r.Ok? ==> exists i :: && 0 <= i < |rules| && Fits(test, rules[i], name) && r.value == rules[i].unit
                                 && forall j :: 0 <= j < i ==> !Fits(test, rules[j], name)
    ensures r.Err? ==> r == Err(RangeError(NoMatch))
  {
    match FirstMatchAt(test, rules, name)
    case Some(i) => Ok(rules[i].unit)
    case None => Err(RangeError(NoMatch))
  }

  /** A new commodity with the grain `toAmount(unit)`. */
  function Made(name: string, unit: AmountLike): (r: Result<Commodity>)
    ensures r.Ok? <==> ToAmount(unit).Ok?
    ensures r.Ok? ==> r.value.name == name && r.value.unit == ToAmount(unit).value
    ensures r.Err? ==> r.error == ToAmount(unit).error
  {
    var u :- ToAmount(unit);
    Ok(Commodity(name, u))
  }

  /** `fromName` on a cache miss: the commodity named `name` with the grain of its rule. */
  function Resolved(test: Matcher, rules: seq<Rule>, name: string): Result<Commodity> {
    var u :- FirstMatch(test, rules, name);
    Ok(Commodity(name, u))
  }

  /** `fromName` (src/core/Commodity.ts:41-43): the cached commodity, or a new one. */
  function Lookup(cache: map<string, Commodity>, test: Matcher, rules: seq<Rule>, name: string): Result<Commodity> {
    if name in cache then Ok(cache[name]) else Resolved(test, rules, name)
  }

  /** `toCommodity` (src/core/Commodity.ts:36-39) over a given registry state. */
  function Resolve(cache: map<string, Commodity>, test: Matcher, rules: seq<Rule>, v: CommodityLike): Result<Commodity> {
    match v
    case Instance(c) => Ok(c)
    case ByName(name) => Lookup(cache, test, rules, name)
  }

  /** The cache after `toCommodity`: only a name that was resolved anew is added. */
  function CachedFor(cache: map<string, Commodity>, v: CommodityLike, r: Result<Commodity>): map<string, Commodity> {
    if v.ByName? then Cached(cache, v.name, r) else cache
  }

  /** The cache after a lookup: a newly made commodity is stored under its name. */
  function Cached(cache: map<string, Commodity>, name: string, r: Result<Commodity>): map<string, Commodity> {
    if r.Ok? then cache[name := r.value] else cache
  }

  /** Resolving the same name twice with no import in between gives the same commodity, and
      the second lookup leaves the cache alone. */
  lemma LookupTwice(cache: map<string, Commodity>, test: Matcher, rules: seq<Rule>, name: string)
    requires Lookup(cache, test, rules, name).Ok?
    ensures var r := Lookup(cache, test, rules, name);
            var cache' := Cached(cache, name, r);
            Lookup(cache', test, rules, name) == r && Cached(cache', name, r) == cache'
  {
  }

  /** Rule precedence: importing `[("USD", cents), ("*", whole)]` puts the `*` rule first, so
      it decides the grain of "USD" whenever it matches that name. */
  lemma LaterRuleTriedFirst(test: Matcher, cents: Amount, whole: Amount)
    requires test(Glob, "*", "USD")
    ensures var rs := Imported([("USD", Existing(cents)), ("*", Existing(whole))], Glob).0;
            rs == [Rule(Glob, "*", whole), Rule(Glob, "USD", cents)] && FirstMatch(test, rs, "USD") == Ok(whole)
  {
    var entries := [("USD", Existing(cents)), ("*", Existing(whole))];
    ImportedRules(entries, Glob);
    var rs := Imported(entries, Glob).0;
    assert |rs| == 2;
    assert Fits(test, rs[0], "USD");
  }

  /** The static state of `Commodity`: the rule list and the cache of resolved commodities. */
  class Registry {
    /** `Commodity.units`, tried in order. */
    var units: seq<Rule>
    /** `Commodity.instances`, by name. */
    var instances: map<string, Commodity>
    /** The pattern test the compiled rules perform. */
    const test: Matcher

    /** Every cached commodity is stored under its own name (src/core/Commodity.ts:33). */
    predicate Valid()
      reads this
    {
      forall n :: n in instances ==> instances[n].name == n
    }

    /** The registry as the module loads: no rules and no commodities. */
    constructor(test: Matcher)
      ensures Valid() && units == [] && instances == map[] && this.test == test
    {
      this.test := test;
      units := [];
      instances := map[];
    }

    /** `importUnits` (src/core/Commodity.ts:45-52): empties the rule list and the cache, then
        puts each entry's rule at the front; a candidate that is not an amount stops it. */
    method ImportUnits(entries: seq<(string, AmountLike)>, mode: MatchMode) returns (outcome: Outcome)
      modifies this
      ensures (units, outcome) == Imported(entries, mode)
      ensures instances == map[] && Valid()
    {
      units := [];
      instances := map[];
      ghost var rules := RulesOf(entries, mode);
      assert rules[0..] == rules;
      var i := 0;
      while i < |entries|
        invariant 0 <= i <= |entries|
        invariant ImportFrom(units, rules[i..]) == Imported(entries, mode)
        invariant instances == map[]
      {
        var rule := RuleFor(entries[i], mode);
        ImportStep(units, rules, i);
        if rule.Err? {
          return Fail(rule.error);
        }
        units := [rule.value] + units;
        i := i + 1;
      }
      ImportStep(units, rules, i);
      return Pass;
    }

    /** `getUnitFromName` (src/core/Commodity.ts:54-61): the grain of the first rule that
        matches, or RangeError when none does. */
    method GetUnitFromName(name: string) returns (r: Result<Amount>)
      ensures r == FirstMatch(test, units, name)
    {
      for i := 0 to |units|
        invariant forall j :: 0 <= j < i ==> !Fits(test, units[j], name)
      {
        if test(units[i].mode, units[i].pattern, name) {
          return Ok(units[i].unit);
        }
      }
      return Err(RangeError(NoMatch));
    }

    /** The protected constructor (src/core/Commodity.ts:26-34): refuses a name already in the
        cache, reads the grain with `toAmount`, and caches the new commodity. */
    method NewCommodity(name: string, unit: AmountLike) returns (r: Result<Commodity>)
      requires Valid()
      modifies this
      ensures Valid() && units == old(units)
      ensures name in old(instances) ==> r == Err(RangeError(DuplicateName))
      ensures name !in old(instances) ==> r == Made(name, unit)
      ensures instances == Cached(old(instances), name, r)
    {
      if name in instances {
        return Err(RangeError(DuplicateName));
      }
      r := Made(name, unit);
      if r.Ok? {
        instances := instances[name := r.value];
      }
    }

    /** `fromName` (src/core/Commodity.ts:41-43): the cached commodity of that name, or a new
        one with the grain `getUnitFromName` finds. */
    method FromName(name: string) returns (r: Result<Commodity>)
      requires Valid()
      modifies this
      ensures Valid() && units == old(units)
      ensures r == Lookup(old(instances), test, units, name)
      ensures instances == Cached(old(instances), name, r)
      ensures r.Ok? ==> r.value.name == name && name in instances && instances[name] == r.value
    {
      if name in instances {
        return Ok(instances[name]);
      }
      var unit := GetUnitFromName(name);
      match unit
      case Err(e) =>
        r := Err(e);
      case Ok(u) =>
        r := NewCommodity(name, Existing(u));
    }

    /** `toCommodity` (src/core/Commodity.ts:36-39): a commodity is returned as it is, a name
        is resolved with `fromName`. */
    method ToCommodity(v: CommodityLike) returns (r: Result<Commodity>)
      requires Valid()
      modifies this
      ensures Valid() && units == old(units)
      ensures r == Resolve(old(instances), test, units, v)
      ensures instances == CachedFor(old(instances), v, r)
      ensures v.Instance? ==> r == Ok(v.commodity) && instances == old(instances)
      ensures r.Ok? && v.ByName? ==> r.value.name == v.name && instances[v.name] == r.value
    {
      match v
      case Instance(c) =>
        r := Ok(c);
      case ByName(name) =>
        r := FromName(name);
    }

    /** Resolving a name twice with no import in between returns the same commodity. */
    method ResolveTwice(name: string) returns (first: Result<Commodity>, second: Result<Commodity>)
      requires Valid()
      modifies this
      ensures first.Ok? ==> second == first
    {
      first := ToCommodity(ByName(name));
      second := ToCommodity(ByName(name));
    }
  }

  // Counting grains

  /** The amount is a whole number of grains `u`. */
  ghost predicate WholeGrains(a: Amount, u: Amount) {
    exists k: int {:trigger Count(k)} :: SameValue(Multiply(u, Count(k)), a)
  }

  /** The number of grains `u` that make the amount `a`: an error when the grain is zero or
      does not divide the amount. */
  function Grains(u: Amount, a: Amount): (r: Result<int>)
    ensures Signed(u) == 0 ==> r == Err(RangeError(DivisionByZero))
    ensures Signed(u) != 0 ==> (r.Ok? <==> WholeGrains(a, u))
    ensures r.Ok? ==> SameValue(Multiply(u, Count(r.value)), a)
  {
    var m := Min(a.exponent, u.exponent);
    var x, y := Scaled(a, m), Scaled(u, m);
    ScaledZero(u, m);
    if y == 0 then Err(RangeError(DivisionByZero))
    else if x % y != 0 then
      NotWholeGrains(a, u);
      Err(SyntaxError("The quotient is not an integer"))
    else
      DivExact(x, y);
      GrainScaled(u, a, x / y);
      Ok(x / y)
  }

  /** `quantize` (src/core/Commodity.ts:13-16) as its callers use it: `toAmount`, then the
      number of grains. The source computes the count as `toBigInt(amount.divide(unit))`; see
      `QuantizeAsWritten`. */
  function Quantize(c: Commodity, amount: AmountLike): Result<int> {
    var a :- ToAmount(amount);
    Grains(c.unit, a)
  }

  /** Rescaling keeps zero and only zero. */
  lemma ScaledZero(a: Amount, m: int)
    requires m <= a.exponent
    ensures Scaled(a, m) == 0 <==> Signed(a) == 0
  {
    var p := Pow10(a.exponent - m);
    if Signed(a) > 0 { MulAtLeast(p, Signed(a)); }
    else if Signed(a) < 0 { MulAtLeast(p, -Signed(a)); NegMul(Signed(a), p); }
  }

  /** k grains make the amount exactly when k times the rescaled grain is the rescaled amount. */
  lemma GrainScaled(u: Amount, a: Amount, k: int)
    ensures var m := Min(a.exponent, u.exponent);
            SameValue(Multiply(u, Count(k)), a) <==> k * Scaled(u, m) == Scaled(a, m)
  {
    var mk := Multiply(u, Count(k));
    assert mk.exponent == u.exponent;
    ScaledProduct(mk, u, a, k);
  }

  /** The same, for any amount `mk` that is k times `u` at the exponent of `u`. */
  lemma ScaledProduct(mk: Amount, u: Amount, a: Amount, k: int)
    requires Signed(mk) == Signed(u) * k && mk.exponent == u.exponent
    ensures var m := Min(a.exponent, u.exponent);
            SameValue(mk, a) <==> k * Scaled(u, m) == Scaled(a, m)
  {
    var m := Min(a.exponent, u.exponent);
    var p := Pow10(u.exponent - m);
    var s := Signed(u);
    assert Scaled(mk, m) == (s * k) * p;
    MulSwap(s, k, p);
  }

  lemma MulSwap(s: int, k: int, p: int)
    ensures (s * k) * p == k * (s * p)
  {
  }

  /** A multiple of y leaves no remainder and divides back exactly. */
  lemma ExactQuotient(k: int, y: int)
    requires y != 0
    ensures (k * y) % y == 0 && (k * y) / y == k
  {
    var q, r := (k * y) / y, (k * y) % y;
    assert k * y == y * q + r && 0 <= r < AbsInt(y);
    assert (k - q) * y == r;
    if k - q != 0 {
      var d: int := k - q;
      if y > 0 {
        if d > 0 { MulAtLeast(d, y); } else { MulAtLeast(-d, y); NegMul(d, y); }
      } else {
        if d > 0 { MulAtLeast(d, -y); NegMul(d, y); } else { MulAtLeast(-d, -y); NegMul(-d, -y); NegMul(d, y); }
      }
    }
  }

  /** A divisor that leaves no remainder divides exactly. */
  lemma DivExact(x: int, y: int)
    requires y != 0 && x % y == 0
    ensures (x / y) * y == x
  {
  }

  /** When the rescaled grain does not divide the rescaled amount, no count of grains makes it. */
  lemma NotWholeGrains(a: Amount, u: Amount)
    requires var m := Min(a.exponent, u.exponent);
             Scaled(u, m) != 0 && Scaled(a, m) % Scaled(u, m) != 0
    ensures !WholeGrains(a, u)
  {
    var m := Min(a.exponent, u.exponent);
    forall k: int
      ensures !SameValue(Multiply(u, Count(k)), a)
    {
      GrainScaled(u, a, k);
      ExactQuotient(k, Scaled(u, m));
    }
  }

  /** The count is k exactly when the grain is not zero and k grains are the amount. */
  lemma GrainsCount(u: Amount, a: Amount, k: int)
    ensures Grains(u, a) == Ok(k) <==> Signed(u) != 0 && SameValue(Multiply(u, Count(k)), a)
  {
    var m := Min(a.exponent, u.exponent);
    var x, y := Scaled(a, m), Scaled(u, m);
    ScaledZero(u, m);
    GrainScaled(u, a, k);
    if Signed(u) != 0 && SameValue(Multiply(u, Count(k)), a) {
      ExactQuotient(k, y);
    }
  }

  /** Quantizing n grains gives n back, for a grain that is not zero. */
  lemma QuantizeMultiple(c: Commodity, n: int)
    requires Signed(c.unit) != 0
    ensures Quantize(c, Existing(Multiply(c.unit, Count(n)))) == Ok(n)
  {
    GrainsCount(c.unit, Multiply(c.unit, Count(n)), n);
  }

  /** `quantize` as written (src/core/Commodity.ts:13-16): `divide` truncates the quotient of
      the coefficients without lining up the exponents, and `toBigInt` reads the normal string
      as the source prints it. */
  function QuantizeAsWritten(c: Commodity, amount: AmountLike): Result<int> {
    var a :- ToAmount(amount);
    var q :- Divide(a, c.unit);
    ToBigIntAsWritten(q)
  }

  /** With the grain 0.05, 0.1 counts as 0 grains as written but 0.10 counts as 2; both are
      2 grains. */
  lemma QuantizeAsWrittenDependsOnNotation()
    ensures var c := Commodity("USD", AmountRep(PlusSign, "5", -2));
            var tenth: Amount := AmountRep(PlusSign, "1", -1);
            var tenHundredths: Amount := AmountRep(PlusSign, "10", -2);
            && SameValue(tenth, tenHundredths)
            && QuantizeAsWritten(c, Existing(tenth)) == Ok(0)
            && QuantizeAsWritten(c, Existing(tenHundredths)) == Ok(2)
            && Quantize(c, Existing(tenth)) == Ok(2)
            && Quantize(c, Existing(tenHundredths)) == Ok(2)
  {
    NickelGrains(AmountRep(PlusSign, "5", -2), AmountRep(PlusSign, "1", -1), AmountRep(PlusSign, "10", -2));
  }

  /** The example above, on named amounts. */
  lemma NickelGrains(u: Amount, tenth: Amount, tenHundredths: Amount)
    requires u == AmountRep(PlusSign, "5", -2)
    requires tenth == AmountRep(PlusSign, "1", -1) && tenHundredths == AmountRep(PlusSign, "10", -2)
    ensures && SameValue(tenth, tenHundredths)
            && QuantizeAsWritten(Commodity("USD", u), Existing(tenth)) == Ok(0)
            && QuantizeAsWritten(Commodity("USD", u), Existing(tenHundredths)) == Ok(2)
            && Quantize(Commodity("USD", u), Existing(tenth)) == Ok(2)
            && Quantize(Commodity("USD", u), Existing(tenHundredths)) == Ok(2)
  {
    assert Signed(u) == 5 by { assert "5"[..0] == ""; }
    assert Signed(tenth) == 1 by { assert "1"[..0] == ""; }
    assert Signed(tenHundredths) == 10 by { assert "10"[..1] == "1"; assert "1"[..0] == ""; }
    assert Pow10(1) == 10;
    DivideAsWritten(tenth, u);
    var q1 := Divide(tenth, u).value;
    assert Signed(q1) == 0 && q1.exponent == 1;
    ZeroProduct(Signed(q1), Pow10(q1.exponent));
    DivideAsWritten(tenHundredths, u);
    var q2 := Divide(tenHundredths, u).value;
    assert Signed(q2) == 2 && q2.exponent == 0 && Pow10(0) == 1;
    OneTimes(Signed(q2), Pow10(q2.exponent));
    QuantizeScaled(u, tenth, 2);
    QuantizeScaled(u, tenHundredths, 2);
  }

  /** k grains, stated on the coefficients rescaled to the smaller exponent. */
  lemma QuantizeScaled(u: Amount, a: Amount, k: int)
    requires var m := Min(a.exponent, u.exponent);
             Signed(u) != 0 && k * Scaled(u, m) == Scaled(a, m)
    ensures Quantize(Commodity("USD", u), Existing(a)) == Ok(k)
  {
    GrainScaled(u, a, k);
    GrainsCount(u, a, k);
  }

  /** When the truncated quotient of the coefficients has a non-negative exponent, the source's
      `quantize` reads it back as that quotient times a power of ten. */
  lemma DivideAsWritten(a: Amount, u: Amount)
    requires Signed(u) != 0 && a.exponent >= u.exponent
    ensures var q := Divide(a, u).value;
            && Signed(q) == TruncDiv(Signed(a), Signed(u)) && q.exponent == a.exponent - u.exponent
            && QuantizeAsWritten(Commodity("USD", u), Existing(a)) == Ok(Signed(q) * Pow10(q.exponent))
  {
    var q := Divide(a, u).value;
    assert QuantizeAsWritten(Commodity("USD", u), Existing(a)) == ToBigIntAsWritten(q) by {
      assert ToAmount(Existing(a)) == Ok(a);
    }
    WholeExponentAsWritten(q);
  }

  /** As written, an amount at the grain's exponent that is not a whole number of grains has
      its remainder dropped: 7 in the grain 5 counts as 1 grain. The model refuses it. */
  lemma QuantizeAsWrittenTruncates()
    ensures var c := Commodity("USD", AmountRep(PlusSign, "5", 0));
            var seven: Amount := AmountRep(PlusSign, "7", 0);
            && QuantizeAsWritten(c, Existing(seven)) == Ok(1)
            && Quantize(c, Existing(seven)).Err?
  {
    FiveGrains(AmountRep(PlusSign, "5", 0), AmountRep(PlusSign, "7", 0));
  }

  /** As written, when the quotient keeps a fraction `toBigInt` throws instead: 0.5 in the
      grain 1 is a SyntaxError, not 0 grains. So a non-multiple is truncated or refused
      depending on the exponents; the model refuses both. */
  lemma QuantizeAsWrittenRefusesHalf()
    ensures var c := Commodity("USD", AmountRep(PlusSign, "1", 0));
            var half: Amount := AmountRep(PlusSign, "5", -1);
            && QuantizeAsWritten(c, Existing(half)).Err?
            && Quantize(c, Existing(half)).Err?
  {
    HalfGrain(AmountRep(PlusSign, "1", 0), AmountRep(PlusSign, "5", -1));
  }

  /** The example above, on named amounts. */
  lemma HalfGrain(u: Amount, half: Amount)
    requires u == AmountRep(PlusSign, "1", 0) && half == AmountRep(PlusSign, "5", -1)
    ensures QuantizeAsWritten(Commodity("USD", u), Existing(half)).Err?
    ensures Quantize(Commodity("USD", u), Existing(half)).Err?
  {
    assert Signed(u) == 1 by { assert "1"[..0] == ""; }
    assert Signed(half) == 5 by { assert "5"[..0] == ""; }
    assert ToAmount(Existing(half)) == Ok(half);
    assert TruncDiv(5, 1) == 5 by { assert AbsInt(5) / AbsInt(1) == 5; }
    var q := Divide(half, u).value;
    SameDenotation(q, half);
    assert ToNormalStringAsWritten(half) == "+0.5";
    assert StripPointZeros("+0.5") == "+0.5";
    BigIntOfPoint("+0.5", 2);
    assert Pow10(1) == 10 && Scaled(half, -1) == 5 && Scaled(u, -1) == 10;
  }

  /** The example above, on named amounts. */
  lemma FiveGrains(u: Amount, seven: Amount)
    requires u == AmountRep(PlusSign, "5", 0) && seven == AmountRep(PlusSign, "7", 0)
    ensures QuantizeAsWritten(Commodity("USD", u), Existing(seven)) == Ok(1)
    ensures Quantize(Commodity("USD", u), Existing(seven)).Err?
  {
    assert Signed(u) == 5 by { assert "5"[..0] == ""; }
    assert Signed(seven) == 7 by { assert "7"[..0] == ""; }
    FiveGrainsAsWritten(u, seven);
    FiveGrainsRefused(u, seven);
  }

  lemma FiveGrainsAsWritten(u: Amount, seven: Amount)
    requires Signed(u) == 5 && Signed(seven) == 7 && u.exponent == 0 && seven.exponent == 0
    ensures QuantizeAsWritten(Commodity("USD", u), Existing(seven)) == Ok(1)
  {
    DivideAsWritten(seven, u);
    SevenByFive();
    var q := Divide(seven, u).value;
    assert Signed(q) == 1 && q.exponent == 0 && Pow10(0) == 1;
    OneTimes(Signed(q), Pow10(q.exponent));
  }

  lemma SevenByFive()
    ensures TruncDiv(7, 5) == 1
  {
    assert AbsInt(7) / AbsInt(5) == 7 / 5 == 1;
  }

  lemma FiveGrainsRefused(u: Amount, seven: Amount)
    requires Signed(u) == 5 && Signed(seven) == 7 && u.exponent == 0 && seven.exponent == 0
    ensures Quantize(Commodity("USD", u), Existing(seven)).Err?
  {
    assert ToAmount(Existing(seven)) == Ok(seven);
    assert Pow10(0) == 1;
    assert Scaled(seven, 0) == 7 && Scaled(u, 0) == 5;
  }

  /** At a non-negative exponent `toBigInt` as written is right: the amount is
      its signed coefficient times a power of ten. */
  lemma WholeExponentAsWritten(q: Amount)
    requires q.exponent >= 0
    ensures ToBigIntAsWritten(q) == Ok(Signed(q) * Pow10(q.exponent))
  {
    assert ToNormalStringAsWritten(q) == ToNormalString(q);
    assert DenotesInteger(q, ToBigInt(q).value);
  }
}
