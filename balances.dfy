/** Balances (src/core/Balance.ts): a quantity per commodity. The source keeps a `Map` from
    commodity to quantity, whose iteration order is the order keys were first set; here it is a
    sequence of holdings with distinct commodities, in that order. */
module Balances {
  import opened Wrappers
  import opened Digits
  import opened Amounts
  import opened Commodities
  import opened Values
  import opened OrderedMaps

  /** `commodityMap`: the quantity held of each commodity. */
  datatype Balance = Balance(holdings: seq<(Commodity, int)>)

  /** The map `fromValues` builds (src/core/Balance.ts:40-47): each value's quantity added in
      turn under its commodity, `commodityMap.get(c) ?? 0n` for a commodity not yet held. */
  function Tally(vs: seq<Value>): seq<(Commodity, int)> {
    if vs == [] then [] else Added(Tally(vs[..|vs| - 1]), vs[|vs| - 1])
  }

  /** `commodityMap.set(commodity, quantity + (commodityMap.get(commodity) ?? 0n))` */
  function Added(hs: seq<(Commodity, int)>, v: Value): seq<(Commodity, int)> {
    Set(hs, v.commodity, v.quantity + OrderedMaps.Get(hs, v.commodity, 0))
  }

  /** The total quantity of the values in commodity c. */
  function SumFor(vs: seq<Value>, c: Commodity): int {
    if vs == [] then 0
    else
      var v := vs[|vs| - 1];
      SumFor(vs[..|vs| - 1], c) + (if v.commodity == c then v.quantity else 0)
  }

  /** `fromValues` stores, for each commodity, the sum of the quantities of the values in it. */
  lemma {:induction false} TallySums(vs: seq<Value>, c: Commodity)
    ensures OrderedMaps.Get(Tally(vs), c, 0) == SumFor(vs, c)
  {
    if vs != [] {
      var hs, v := Tally(vs[..|vs| - 1]), vs[|vs| - 1];
      TallySums(vs[..|vs| - 1], c);
      SetGet(hs, v.commodity, v.quantity + OrderedMaps.Get(hs, v.commodity, 0), c, 0);
    }
  }

  /** Some value is in commodity c. */
  predicate Mentions(vs: seq<Value>, c: Commodity) {
    exists i :: 0 <= i < |vs| && vs[i].commodity == c
  }

  /** `fromValues` holds each commodity once, and exactly the commodities of the values. */
  lemma {:induction false} TallyKeys(vs: seq<Value>)
    ensures Distinct(Tally(vs))
    ensures forall c :: IndexOf(Tally(vs), c).Some? <==> Mentions(vs, c)
  {
    if vs != [] {
      var init, v := vs[..|vs| - 1], vs[|vs| - 1];
      var hs := Tally(init);
      var q := v.quantity + OrderedMaps.Get(hs, v.commodity, 0);
      assert Tally(vs) == Set(hs, v.commodity, q);
      TallyKeys(init);
      SetKeys(hs, v.commodity, q);
      MentionsLast(vs);
      forall c
        ensures IndexOf(Tally(vs), c).Some? <==> Mentions(vs, c)
      {
        assert IndexOf(hs, c).Some? <==> Mentions(init, c);
      }
    }
  }

  lemma MentionsLast(vs: seq<Value>)
    requires vs != []
    ensures forall c :: Mentions(vs, c) <==> Mentions(vs[..|vs| - 1], c) || vs[|vs| - 1].commodity == c
  {
    var init := vs[..|vs| - 1];
    forall c
      ensures Mentions(vs, c) <==> Mentions(init, c) || vs[|vs| - 1].commodity == c
    {
      if Mentions(vs, c) {
        var i :| 0 <= i < |vs| && vs[i].commodity == c;
        if i < |init| { assert init[i] == vs[i]; }
      }
      if Mentions(init, c) {
        var i :| 0 <= i < |init| && init[i].commodity == c;
        assert vs[i] == init[i];
      }
    }
  }

  /** `toValue` on each argument in turn over a given registry state, with the commodity cache
      each call leaves handed to the next; the first failure ends it. */
  function ValuesIn(cache: map<string, Commodity>, test: Matcher, rules: seq<Rule>, args: seq<ValueLike>)
    : (r: (Result<seq<Value>>, map<string, Commodity>))
    ensures r.0.Ok? ==> |r.0.value| == |args|
  {
    if args == [] then (Ok([]), cache)
    else
      var init := ValuesIn(cache, test, rules, args[..|args| - 1]);
      var last := args[|args| - 1];
      if init.0.Err? then init
      else
        var v := ToValueIn(init.1, test, rules, last);
        var after := CacheAfter(init.1, test, rules, last);
        if v.Err? then (Err(v.error), after) else (Ok(init.0.value + [v.value]), after)
  }

  /** Once an argument fails, the arguments after it are not looked at. */
  lemma {:induction false} ValuesInStops(cache: map<string, Commodity>, test: Matcher, rules: seq<Rule>, args: seq<ValueLike>, n: nat)
    requires n <= |args| && ValuesIn(cache, test, rules, args[..n]).0.Err?
    ensures ValuesIn(cache, test, rules, args) == ValuesIn(cache, test, rules, args[..n])
    decreases |args| - n
  {
    if n < |args| {
      var init := args[..|args| - 1];
      assert init[..n] == args[..n];
      ValuesInStops(cache, test, rules, init, n);
    } else {
      assert args[..n] == args;
    }
  }

  /** One more argument, once the earlier ones have all been resolved. */
  lemma ValuesInNext(cache: map<string, Commodity>, test: Matcher, rules: seq<Rule>, args: seq<ValueLike>, i: nat,
                     vs: seq<Value>, before: map<string, Commodity>)
    requires i < |args| && ValuesIn(cache, test, rules, args[..i]) == (Ok(vs), before)
    ensures var v := ToValueIn(before, test, rules, args[i]);
            var after := CacheAfter(before, test, rules, args[i]);
            ValuesIn(cache, test, rules, args[..i + 1]) == if v.Err? then (Err(v.error), after) else (Ok(vs + [v.value]), after)
  {
    assert args[..i + 1][..i] == args[..i];
  }

  /** When every argument resolves, the i-th value is what `toValue` makes of the i-th argument
      with the cache the earlier arguments left: a `Value` passes unchanged, a pair is built by
      the constructor, a string is parsed by `fromString`. */
  lemma {:induction false} ValuesInEach(cache: map<string, Commodity>, test: Matcher, rules: seq<Rule>, args: seq<ValueLike>, i: nat)
    requires i < |args| && ValuesIn(cache, test, rules, args).0.Ok?
    ensures var before := ValuesIn(cache, test, rules, args[..i]);
            && before.0.Ok?
            && ToValueIn(before.1, test, rules, args[i]) == Ok(ValuesIn(cache, test, rules, args).0.value[i])
  {
    var init := args[..|args| - 1];
    if i == |args| - 1 {
      assert args[..i] == init;
    } else {
      assert init[..i] == args[..i] && init[i] == args[i];
      ValuesInEach(cache, test, rules, init, i);
    }
  }

  /** The arguments fail exactly when one of them fails after all those before it resolved;
      by `ValuesInNext`, that one is refused by `toValue`. */
  lemma ValuesInFails(cache: map<string, Commodity>, test: Matcher, rules: seq<Rule>, args: seq<ValueLike>)
    ensures ValuesIn(cache, test, rules, args).0.Err? <==>
            exists i :: 0 <= i < |args| && ValuesIn(cache, test, rules, args[..i]).0.Ok?
                        && ValuesIn(cache, test, rules, args[..i + 1]).0.Err?
  {
    if ValuesIn(cache, test, rules, args).0.Err? {
      assert args[..|args|] == args;
      FirstFailure(cache, test, rules, args, |args|);
    } else {
      forall n | 0 <= n <= |args|
        ensures ValuesIn(cache, test, rules, args[..n]).0.Ok?
      {
        ValuesInPrefix(cache, test, rules, args, n);
      }
    }
  }

  /** When every argument resolves, so does every prefix of them. */
  lemma {:induction false} ValuesInPrefix(cache: map<string, Commodity>, test: Matcher, rules: seq<Rule>, args: seq<ValueLike>, n: nat)
    requires n <= |args| && ValuesIn(cache, test, rules, args).0.Ok?
    ensures ValuesIn(cache, test, rules, args[..n]).0.Ok?
    decreases |args|
  {
    if n < |args| {
      var init := args[..|args| - 1];
      assert init[..n] == args[..n];
      ValuesInPrefix(cache, test, rules, init, n);
    } else {
      assert args[..n] == args;
    }
  }

  /** A failing prefix has a first failing argument. */
  lemma {:induction false} FirstFailure(cache: map<string, Commodity>, test: Matcher, rules: seq<Rule>, args: seq<ValueLike>, n: nat)
    requires n <= |args| && ValuesIn(cache, test, rules, args[..n]).0.Err?
    ensures exists i :: 0 <= i < n && ValuesIn(cache, test, rules, args[..i]).0.Ok?
                        && ValuesIn(cache, test, rules, args[..i + 1]).0.Err?
  {
    assert n != 0;
    if ValuesIn(cache, test, rules, args[..n - 1]).0.Err? {
      FirstFailure(cache, test, rules, args, n - 1);
    } else {
      assert ValuesIn(cache, test, rules, args[..(n - 1) + 1]).0.Err?;
    }
  }

  /** `fromValues` (src/core/Balance.ts:40-47): each argument goes through `toValue`, and its
      quantity is added under its commodity. */
  method FromValues(reg: Registry, values: seq<ValueLike>) returns (r: Result<Balance>)
    requires reg.Valid()
    modifies reg
    ensures reg.Valid() && reg.units == old(reg.units)
    ensures var (vs, cache) := ValuesIn(old(reg.instances), reg.test, reg.units, values);
            && reg.instances == cache
            && r == (if vs.Ok? then Ok(Balance(Tally(vs.value))) else Err(vs.error))
  {
    ghost var cache := reg.instances;
    var holdings := [];
    ghost var resolved := [];
    for i := 0 to |values|
      invariant reg.Valid() && reg.units == old(reg.units)
      invariant ValuesIn(cache, reg.test, reg.units, values[..i]) == (Ok(resolved), reg.instances)
      invariant holdings == Tally(resolved)
    {
      ghost var before := reg.instances;
      var v := ToValue(reg, values[i]);
      ValuesInNext(cache, reg.test, reg.units, values, i, resolved, before);
      if v.Err? {
        ValuesInStops(cache, reg.test, reg.units, values, i + 1);
        return Err(v.error);
      }
      holdings := Added(holdings, v.value);
      assert (resolved + [v.value])[..i] == resolved;
      resolved := resolved + [v.value];
    }
    assert values[..|values|] == values;
    return Ok(Balance(holdings));
  }

  /** `get` (src/core/Balance.ts:7-11): the stored quantity of the commodity, or 0. */
  method Get(reg: Registry, b: Balance, key: CommodityLike) returns (r: Result<Value>)
    requires reg.Valid()
    modifies reg
    ensures reg.Valid() && reg.units == old(reg.units)
    ensures var c := Resolve(old(reg.instances), reg.test, reg.units, key);
            && (c.Err? ==> r == Err(c.error))
            && (c.Ok? ==> r == Ok(Value(OrderedMaps.Get(b.holdings, c.value, 0), c.value)))
    ensures reg.instances == CachedFor(old(reg.instances), key, Resolve(old(reg.instances), reg.test, reg.units, key))
  {
    var c := reg.ToCommodity(key);
    if c.Err? {
      return Err(c.error);
    }
    var quantity := OrderedMaps.Get(b.holdings, c.value, 0);
    r := ToValue(reg, Counted(quantity, c.value));
  }

  /** The balance holds nothing but zeros. */
  predicate AllZero(b: Balance) {
    forall i :: 0 <= i < |b.holdings| ==> b.holdings[i].1 == 0
  }

  /** `isEmpty` (src/core/Balance.ts:29-32): every stored quantity is exactly 0. */
  method IsEmpty(b: Balance) returns (r: bool)
    ensures r <==> AllZero(b)
  {
    for i := 0 to |b.holdings|
      invariant forall j :: 0 <= j < i ==> b.holdings[j].1 == 0
    {
      if b.holdings[i].1 != 0 {
        return false;
      }
    }
    return true;
  }

  /** A balance made from values is empty exactly when every commodity sums to zero. */
  lemma TallyEmpty(vs: seq<Value>)
    ensures AllZero(Balance(Tally(vs))) <==> forall c :: SumFor(vs, c) == 0
  {
    var hs := Tally(vs);
    TallyKeys(vs);
    if AllZero(Balance(hs)) {
      forall c
        ensures SumFor(vs, c) == 0
      {
        TallySums(vs, c);
      }
    } else {
      var i :| 0 <= i < |hs| && hs[i].1 != 0;
      var c := hs[i].0;
      TallySums(vs, c);
      assert IndexOf(hs, c) == Some(i) by {
        var k := IndexOf(hs, c).value;
        assert k == i;
      }
    }
  }

  // Listing

  /** No commodity twice, as in a `Set`. */
  predicate Unique(cs: seq<Commodity>) {
    forall i, j :: 0 <= i < j < |cs| ==> cs[i] != cs[j]
  }

  /** `new Set(commodities)`: each commodity once, at its first occurrence. */
  function Dedup(cs: seq<Commodity>): (r: seq<Commodity>)
    ensures forall c :: c in r <==> c in cs
    ensures Unique(r)
  {
    if cs == [] then []
    else
      var d := Dedup(cs[..|cs| - 1]);
      var c := cs[|cs| - 1];
      assert forall x :: x in cs <==> x in cs[..|cs| - 1] || x == c;
      if c in d then d else d + [c]
  }

  /** `set.delete(c)`: the others, in order. */
  function Without(cs: seq<Commodity>, c: Commodity): (r: seq<Commodity>)
    ensures forall x :: x in r <==> x in cs && x != c
    ensures Unique(cs) ==> Unique(r)
  {
    if cs == [] then []
    else
      var tail := Without(cs[1..], c);
      assert forall x :: x in cs <==> x == cs[0] || x in cs[1..];
      assert Unique(cs) ==> cs[0] !in cs[1..] && Unique(cs[1..]) by {
        if Unique(cs) {
          forall i | 0 <= i < |cs| - 1 ensures cs[1..][i] != cs[0] { assert cs[1..][i] == cs[i + 1]; }
        }
      }
      (if cs[0] == c then [] else [cs[0]]) + tail
  }

  /** The requested commodities left after every held one is deleted. */
  function Remaining(hs: seq<(Commodity, int)>, wanted: seq<Commodity>): (r: seq<Commodity>)
    ensures forall c :: c in r <==> c in wanted && IndexOf(hs, c).None?
    ensures Unique(wanted) ==> Unique(r)
  {
    if hs == [] then wanted
    else
      var init := hs[..|hs| - 1];
      var last := hs[|hs| - 1].0;
      assert forall c :: IndexOf(hs, c).None? <==> IndexOf(init, c).None? && c != last by {
        forall c ensures IndexOf(hs, c).None? <==> IndexOf(init, c).None? && c != last {
          assert forall j :: 0 <= j < |init| ==> init[j] == hs[j];
        }
      }
      Without(Remaining(init, wanted), last)
  }

  /** The held commodities as values, in order: `toValue({commodity, quantity})`. */
  function Stored(hs: seq<(Commodity, int)>): (r: seq<Value>)
    ensures |r| == |hs|
    ensures forall i :: 0 <= i < |hs| ==> r[i] == Value(hs[i].1, hs[i].0)
  {
    seq(|hs|, i requires 0 <= i < |hs| => Value(hs[i].1, hs[i].0))
  }

  /** Where commodity c is first mentioned among the values. */
  function FirstMention(vs: seq<Value>, c: Commodity): (r: nat)
    requires Mentions(vs, c)
    ensures r < |vs| && vs[r].commodity == c
    ensures forall j :: 0 <= j < r ==> vs[j].commodity != c
  {
    MentionsLast(vs);
    var init := vs[..|vs| - 1];
    if Mentions(init, c) then
      var r := FirstMention(init, c);
      assert forall j :: 0 <= j < |init| ==> init[j] == vs[j];
      r
    else
      assert forall j :: 0 <= j < |init| ==> init[j] == vs[j] && init[j].commodity != c;
      |vs| - 1
  }

  /** The commodities of `hs` are mentioned among the values, in the order of their first
      mention. */
  ghost predicate InFirstOrder(vs: seq<Value>, hs: seq<(Commodity, int)>) {
    forall i, j :: 0 <= i < j < |hs| ==>
      && Mentions(vs, hs[i].0) && Mentions(vs, hs[j].0)
      && FirstMention(vs, hs[i].0) < FirstMention(vs, hs[j].0)
  }

  /** A commodity mentioned before the last value is first mentioned where it was. */
  lemma FirstMentionInit(vs: seq<Value>, d: Commodity)
    requires vs != [] && Mentions(vs[..|vs| - 1], d)
    ensures Mentions(vs, d) && FirstMention(vs, d) == FirstMention(vs[..|vs| - 1], d) < |vs| - 1
  {
    MentionsLast(vs);
  }

  /** `fromValues` holds the commodities in the order they are first mentioned. */
  lemma {:induction false} TallyOrder(vs: seq<Value>)
    ensures InFirstOrder(vs, Tally(vs))
  {
    if vs != [] {
      var init, v := vs[..|vs| - 1], vs[|vs| - 1];
      var before := Tally(init);
      var q := v.quantity + OrderedMaps.Get(before, v.commodity, 0);
      var hs := Tally(vs);
      assert hs == Set(before, v.commodity, q);
      TallyOrder(init);
      TallyKeys(init);
      forall i | 0 <= i < |before|
        ensures Mentions(vs, before[i].0) && FirstMention(vs, before[i].0) == FirstMention(init, before[i].0) < |init|
      {
        assert IndexOf(before, before[i].0).Some?;
        FirstMentionInit(vs, before[i].0);
      }
      if IndexOf(before, v.commodity).Some? {
        SetKeepsKeys(before, v.commodity, q);
        assert forall i :: 0 <= i < |hs| ==> hs[i].0 == Keys(hs)[i] == Keys(before)[i] == before[i].0;
      } else {
        TallyAppends(vs, before, q);
      }
    }
  }

  /** A commodity held for the first time goes last, after all those mentioned before it. */
  lemma TallyAppends(vs: seq<Value>, before: seq<(Commodity, int)>, q: int)
    requires vs != [] && InFirstOrder(vs[..|vs| - 1], before)
    requires forall c :: IndexOf(before, c).Some? <==> Mentions(vs[..|vs| - 1], c)
    requires IndexOf(before, vs[|vs| - 1].commodity).None?
    ensures InFirstOrder(vs, before + [(vs[|vs| - 1].commodity, q)])
  {
    var init, c := vs[..|vs| - 1], vs[|vs| - 1].commodity;
    var hs := before + [(c, q)];
    assert !Mentions(init, c);
    MentionsLast(vs);
    assert FirstMention(vs, c) == |vs| - 1;
    forall i | 0 <= i < |before|
      ensures Mentions(vs, before[i].0) && FirstMention(vs, before[i].0) == FirstMention(init, before[i].0) < |init|
    {
      assert IndexOf(before, before[i].0).Some?;
      FirstMentionInit(vs, before[i].0);
    }
    forall i, j | 0 <= i < j < |hs|
      ensures Mentions(vs, hs[i].0) && Mentions(vs, hs[j].0) && FirstMention(vs, hs[i].0) < FirstMention(vs, hs[j].0)
    {
      assert hs[i] == before[i];
      if j < |before| {
        assert hs[j] == before[j];
      }
    }
  }

  /** The held values `fromValues` leaves, as `values` first lists them: each commodity of the
      values once, in the order first mentioned, with the sum of its quantities. */
  lemma StoredTally(vs: seq<Value>)
    ensures var r := Stored(Tally(vs));
            && (forall i, j :: 0 <= i < j < |r| ==> r[i].commodity != r[j].commodity)
            && (forall c :: (exists i :: 0 <= i < |r| && r[i].commodity == c) <==> Mentions(vs, c))
            && (forall i :: 0 <= i < |r| ==> r[i].quantity == SumFor(vs, r[i].commodity))
            && (forall i, j :: 0 <= i < j < |r| ==>
                  && Mentions(vs, r[i].commodity) && Mentions(vs, r[j].commodity)
                  && FirstMention(vs, r[i].commodity) < FirstMention(vs, r[j].commodity))
  {
    var hs := Tally(vs);
    var r := Stored(hs);
    TallyKeys(vs);
    TallyOrder(vs);
    forall i | 0 <= i < |r|
      ensures r[i].quantity == SumFor(vs, r[i].commodity)
    {
      TallySums(vs, hs[i].0);
      assert IndexOf(hs, hs[i].0) == Some(i) by {
        var k := IndexOf(hs, hs[i].0).value;
        assert k == i;
      }
    }
    forall c
      ensures (exists i :: 0 <= i < |r| && r[i].commodity == c) <==> Mentions(vs, c)
    {
      if Mentions(vs, c) {
        var k := IndexOf(hs, c).value;
        assert r[k].commodity == c;
      }
    }
  }

  /** A commodity whose grain is not zero, so that amounts can be counted in it. */
  predicate Countable(c: Commodity) {
    Signed(c.unit) != 0
  }

  /** `toValue({commodity, amount: 0})`: the number 0 reads as `Zero`, which is zero grains
      of any commodity whose grain is not zero; a zero grain is a division by zero. */
  lemma ZeroValueOf(c: Commodity)
    ensures Countable(c) ==> FromAmount(Existing(Zero), c) == Ok(Value(0, c))
    ensures !Countable(c) ==> FromAmount(Existing(Zero), c) == Err(RangeError(DivisionByZero))
  {
    ZeroIsZero();
    GrainsCount(c.unit, Zero, 0);
  }

  /** `toValue({commodity, amount: 0})` for each commodity in turn; the first refusal ends it. */
  function ZeroValues(cs: seq<Commodity>): (r: Result<seq<Value>>)
    ensures r.Ok? <==> forall i :: 0 <= i < |cs| ==> Countable(cs[i])
    ensures r.Ok? ==> |r.value| == |cs| && forall i :: 0 <= i < |cs| ==> r.value[i] == Value(0, cs[i])
    ensures r.Err? ==> r == Err(RangeError(DivisionByZero))
  {
    if cs == [] then Ok([])
    else
      var init, last := cs[..|cs| - 1], cs[|cs| - 1];
      assert forall i :: 0 <= i < |init| ==> init[i] == cs[i];
      var zs :- ZeroValues(init);
      if Countable(last) then Ok(zs + [Value(0, last)]) else Err(RangeError(DivisionByZero))
  }

  /** What `values(...includes)` yields (src/core/Balance.ts:13-23), given the requested
      commodities after deduplication: the held values, then a zero of each requested
      commodity that is not held. */
  function Listed(hs: seq<(Commodity, int)>, wanted: seq<Commodity>): (r: Result<seq<Value>>)
    ensures r.Ok? <==> forall i :: 0 <= i < |Remaining(hs, wanted)| ==> Countable(Remaining(hs, wanted)[i])
    ensures r.Ok? ==> |r.value| == |hs| + |Remaining(hs, wanted)| && r.value[..|hs|] == Stored(hs)
    ensures r.Ok? ==> forall i :: |hs| <= i < |r.value| ==> r.value[i] == Value(0, Remaining(hs, wanted)[i - |hs|])
  {
    match ZeroValues(Remaining(hs, wanted))
    case Err(e) => Err(e)
    case Ok(zs) =>
      assert (Stored(hs) + zs)[..|hs|] == Stored(hs);
      Ok(Stored(hs) + zs)
  }

  /** Every commodity is listed once: the held ones are distinct, and the zeros are of
      distinct commodities that are not held. */
  lemma ListedDistinct(hs: seq<(Commodity, int)>, wanted: seq<Commodity>)
    requires Distinct(hs) && Unique(wanted)
    requires Listed(hs, wanted).Ok?
    ensures var r := Listed(hs, wanted).value;
            forall i, j :: 0 <= i < j < |r| ==> r[i].commodity != r[j].commodity
  {
    var rest := Remaining(hs, wanted);
    var r := Listed(hs, wanted).value;
    forall i, j | 0 <= i < j < |r|
      ensures r[i].commodity != r[j].commodity
    {
      if j < |hs| {
        assert r[i] == r[..|hs|][i] && r[j] == r[..|hs|][j];
      } else if i < |hs| {
        assert r[i] == r[..|hs|][i];
        assert r[j].commodity == rest[j - |hs|];
        assert rest[j - |hs|] in rest;
        assert IndexOf(hs, r[i].commodity) != None;
      } else {
        assert r[i].commodity == rest[i - |hs|] && r[j].commodity == rest[j - |hs|];
      }
    }
  }

  /** A requested commodity is listed after the held ones exactly when it is not held. */
  lemma ListedMissing(hs: seq<(Commodity, int)>, wanted: seq<Commodity>, c: Commodity)
    requires Listed(hs, wanted).Ok?
    ensures var r := Listed(hs, wanted).value;
            c in wanted && IndexOf(hs, c).None? <==> exists i :: |hs| <= i < |r| && r[i].commodity == c
  {
    var rest := Remaining(hs, wanted);
    var r := Listed(hs, wanted).value;
    if c in rest {
      var k :| 0 <= k < |rest| && rest[k] == c;
      ListedAt(hs, wanted, |hs| + k);
    }
    if exists i :: |hs| <= i < |r| && r[i].commodity == c {
      var i :| |hs| <= i < |r| && r[i].commodity == c;
      ListedAt(hs, wanted, i);
    }
  }

  /** Past the held ones, the listing holds the remaining commodities in order. */
  lemma ListedAt(hs: seq<(Commodity, int)>, wanted: seq<Commodity>, i: int)
    requires Listed(hs, wanted).Ok? && |hs| <= i < |Listed(hs, wanted).value|
    ensures var rest := Remaining(hs, wanted);
            0 <= i - |hs| < |rest| && Listed(hs, wanted).value[i].commodity == rest[i - |hs|]
            && rest[i - |hs|] in rest
  {
  }

  /** `includes.map(Commodity.toCommodity)` (src/core/Balance.ts:14) over a given registry
      state: each argument resolved in turn, with the commodity cache each resolution leaves
      handed to the next; the first failure ends it. */
  function ResolvedIn(cache: map<string, Commodity>, test: Matcher, rules: seq<Rule>, includes: seq<CommodityLike>)
    : (r: (Result<seq<Commodity>>, map<string, Commodity>))
    ensures r.0.Ok? ==> |r.0.value| == |includes|
  {
    if includes == [] then (Ok([]), cache)
    else
      var init := ResolvedIn(cache, test, rules, includes[..|includes| - 1]);
      var last := includes[|includes| - 1];
      if init.0.Err? then init
      else
        var c := Resolve(init.1, test, rules, last);
        var after := CachedFor(init.1, last, c);
        if c.Err? then (Err(c.error), after) else (Ok(init.0.value + [c.value]), after)
  }

  /** One more argument, once the earlier ones have all been resolved. */
  lemma ResolvedInNext(cache: map<string, Commodity>, test: Matcher, rules: seq<Rule>, includes: seq<CommodityLike>, i: nat,
                       cs: seq<Commodity>, before: map<string, Commodity>)
    requires i < |includes| && ResolvedIn(cache, test, rules, includes[..i]) == (Ok(cs), before)
    ensures var c := Resolve(before, test, rules, includes[i]);
            var after := CachedFor(before, includes[i], c);
            ResolvedIn(cache, test, rules, includes[..i + 1]) == if c.Err? then (Err(c.error), after) else (Ok(cs + [c.value]), after)
  {
    assert includes[..i + 1][..i] == includes[..i];
  }

  /** Once an argument fails, the arguments after it are not looked at. */
  lemma {:induction false} ResolvedInStops(cache: map<string, Commodity>, test: Matcher, rules: seq<Rule>, includes: seq<CommodityLike>, n: nat)
    requires n <= |includes| && ResolvedIn(cache, test, rules, includes[..n]).0.Err?
    ensures ResolvedIn(cache, test, rules, includes) == ResolvedIn(cache, test, rules, includes[..n])
    decreases |includes| - n
  {
    if n < |includes| {
      var init := includes[..|includes| - 1];
      assert init[..n] == includes[..n];
      ResolvedInStops(cache, test, rules, init, n);
    } else {
      assert includes[..n] == includes;
    }
  }

  /** When every argument resolves, the i-th commodity is what `toCommodity` makes of the i-th
      argument with the cache the earlier ones left: an instance is itself, and a name gives
      the commodity `fromName` finds for it. */
  lemma {:induction false} ResolvedInEach(cache: map<string, Commodity>, test: Matcher, rules: seq<Rule>, includes: seq<CommodityLike>, i: nat)
    requires i < |includes| && ResolvedIn(cache, test, rules, includes).0.Ok?
    ensures var before := ResolvedIn(cache, test, rules, includes[..i]);
            var c := ResolvedIn(cache, test, rules, includes).0.value[i];
            && before.0.Ok?
            && Resolve(before.1, test, rules, includes[i]) == Ok(c)
            && (includes[i].Instance? ==> c == includes[i].commodity)
            && (includes[i].ByName? ==> Lookup(before.1, test, rules, includes[i].name) == Ok(c))
  {
    var init := includes[..|includes| - 1];
    if i == |includes| - 1 {
      assert includes[..i] == init;
    } else {
      assert init[..i] == includes[..i] && init[i] == includes[i];
      ResolvedInEach(cache, test, rules, init, i);
    }
  }

  /** `toCommodity` refuses the i-th argument, once all those before it have resolved. */
  predicate RefusedAt(cache: map<string, Commodity>, test: Matcher, rules: seq<Rule>, includes: seq<CommodityLike>, i: nat)
    requires i < |includes|
  {
    var before := ResolvedIn(cache, test, rules, includes[..i]);
    before.0.Ok? && Resolve(before.1, test, rules, includes[i]).Err?
  }

  /** Resolving fails exactly when some argument is refused once all those before it have
      resolved. */
  lemma {:induction false} ResolvedInFails(cache: map<string, Commodity>, test: Matcher, rules: seq<Rule>, includes: seq<CommodityLike>)
    ensures ResolvedIn(cache, test, rules, includes).0.Err? <==>
            exists i :: 0 <= i < |includes| && RefusedAt(cache, test, rules, includes, i)
  {
    if includes != [] {
      var n := |includes| - 1;
      var init := includes[..n];
      ResolvedInFails(cache, test, rules, init);
      forall i | 0 <= i < n
        ensures RefusedAt(cache, test, rules, includes, i) == RefusedAt(cache, test, rules, init, i)
      {
        assert includes[..i] == init[..i] && includes[i] == init[i];
      }
      var pre := ResolvedIn(cache, test, rules, init);
      if pre.0.Err? {
        var i :| 0 <= i < n && RefusedAt(cache, test, rules, init, i);
        assert RefusedAt(cache, test, rules, includes, i);
      } else if Resolve(pre.1, test, rules, includes[n]).Err? {
        assert RefusedAt(cache, test, rules, includes, n);
      } else {
        assert !RefusedAt(cache, test, rules, includes, n);
      }
    }
  }

  /** The names resolved through the registry: every name looked up is cached afterwards, with
      the commodity it resolved to, so a request that names a commodity twice gets it twice. */
  lemma {:induction false} ResolvedInCaches(cache: map<string, Commodity>, test: Matcher, rules: seq<Rule>, includes: seq<CommodityLike>, i: nat)
    requires i < |includes| && includes[i].ByName?
    requires ResolvedIn(cache, test, rules, includes).0.Ok?
    ensures var r := ResolvedIn(cache, test, rules, includes);
            includes[i].name in r.1 && r.1[includes[i].name] == r.0.value[i]
  {
    var init := includes[..|includes| - 1];
    var last := includes[|includes| - 1];
    var pre := ResolvedIn(cache, test, rules, init);
    if i == |includes| - 1 {
      assert includes[..i] == init;
      ResolvedInEach(cache, test, rules, includes, i);
    } else {
      assert init[i] == includes[i];
      ResolvedInCaches(cache, test, rules, init, i);
      assert pre.0.value[i] == ResolvedIn(cache, test, rules, includes).0.value[i];
      var c := Resolve(pre.1, test, rules, last);
      if last.ByName? && last.name == includes[i].name {
        assert Lookup(pre.1, test, rules, last.name) == Ok(pre.1[last.name]);
      }
    }
  }

  /** `includes.map(Commodity.toCommodity)` (src/core/Balance.ts:14): each argument resolved in
      turn through the registry; the first failure ends it. */
  method ResolveAll(reg: Registry, includes: seq<CommodityLike>) returns (r: Result<seq<Commodity>>)
    requires reg.Valid()
    modifies reg
    ensures reg.Valid() && reg.units == old(reg.units)
    ensures (r, reg.instances) == ResolvedIn(old(reg.instances), reg.test, reg.units, includes)
  {
    ghost var cache := reg.instances;
    var resolved := [];
    for i := 0 to |includes|
      invariant reg.Valid() && reg.units == old(reg.units)
      invariant ResolvedIn(cache, reg.test, reg.units, includes[..i]) == (Ok(resolved), reg.instances)
    {
      ghost var before := reg.instances;
      var c := reg.ToCommodity(includes[i]);
      ResolvedInNext(cache, reg.test, reg.units, includes, i, resolved, before);
      if c.Err? {
        ResolvedInStops(cache, reg.test, reg.units, includes, i + 1);
        return Err(c.error);
      }
      resolved := resolved + [c.value];
    }
    assert includes[..|includes|] == includes;
    return Ok(resolved);
  }

  /** The first loop of `values` (src/core/Balance.ts:15-19): each held commodity is listed
      and deleted from the request set. */
  method ListHeld(b: Balance, wanted: seq<Commodity>) returns (listed: seq<Value>, pending: seq<Commodity>)
    ensures listed == Stored(b.holdings)
    ensures pending == Remaining(b.holdings, wanted)
  {
    listed, pending := [], wanted;
    for i := 0 to |b.holdings|
      invariant listed == Stored(b.holdings[..i])
      invariant pending == Remaining(b.holdings[..i], wanted)
    {
      var h := b.holdings[i];
      listed := listed + [Value(h.1, h.0)];
      assert b.holdings[..i + 1][..i] == b.holdings[..i];
      pending := Without(pending, h.0);
    }
    assert b.holdings[..|b.holdings|] == b.holdings;
  }

  /** `toValue({commodity, amount: 0})` (src/core/Balance.ts:21). */
  method ZeroValue(c: Commodity) returns (r: Result<Value>)
    ensures r == if Countable(c) then Ok(Value(0, c)) else Err(RangeError(DivisionByZero))
  {
    r := FromAmount(Existing(Zero), c);
    ZeroValueOf(c);
  }

  /** The second loop of `values` (src/core/Balance.ts:20-22): a zero of each commodity left. */
  method ListZeros(pending: seq<Commodity>) returns (r: Result<seq<Value>>)
    ensures r == ZeroValues(pending)
  {
    var zeros := [];
    for i := 0 to |pending|
      invariant ZeroValues(pending[..i]) == Ok(zeros)
    {
      var v := ZeroValue(pending[i]);
      assert pending[..i + 1][..i] == pending[..i];
      if v.Err? {
        return Err(v.error);
      }
      zeros := zeros + [v.value];
    }
    assert pending[..|pending|] == pending;
    return Ok(zeros);
  }

  /** `values(...includes)` (src/core/Balance.ts:13-23): resolves the requested commodities,
      lists every held commodity, deleting it from the request set, then lists a zero value
      for each commodity left in the set. `wanted` names the request set. */
  method ListValues(reg: Registry, b: Balance, includes: seq<CommodityLike>)
    returns (r: Result<seq<Value>>, wanted: seq<Commodity>)
    requires reg.Valid()
    modifies reg
    ensures reg.Valid() && reg.units == old(reg.units)
    ensures var (requested, cache) := ResolvedIn(old(reg.instances), reg.test, reg.units, includes);
            && reg.instances == cache
            && (requested.Err? ==> r == Err(requested.error))
            && (requested.Ok? ==> wanted == Dedup(requested.value) && r == Listed(b.holdings, wanted))
  {
    var requested := ResolveAll(reg, includes);
    if requested.Err? {
      return Err(requested.error), [];
    }
    wanted := Dedup(requested.value);
    var listed, pending := ListHeld(b, wanted);
    var zeros := ListZeros(pending);
    if zeros.Err? {
      return Err(zeros.error), wanted;
    }
    return Ok(listed + zeros.value), wanted;
  }
}
