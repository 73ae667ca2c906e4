/** Accounts (src/core/Account.ts): an account is identified by its normalised URI, holds the
    entries posted to it and an active flag, and can be opened or closed only while its balance
    is empty. The static per-URI instance registry is the class `AccountRegistry`. */
module Accounts {
  import opened Wrappers
  import opened Digits
  import opened Amounts
  import opened AmountExamples
  import opened Commodities
  import opened Values
  import opened Balances
  import opened Entries
  import opened OrderedMaps

  const OpenNotEmpty := "The account to be opened is not empty"
  const CloseNotEmpty := "The account to be closed is not empty"
  const DuplicateUri := "Duplicated instances for the same account URI"
  const NoPath := "Cannot interpret the path of the URI"
  const MalformedUri := "URI malformed"

  // The entries an account keeps

  /** The entries that post to `uri`, in their original order. The source keeps an entry when
      `entry.account === this`; an account is the one object registered under its URI, so the
      model compares the entry's account URI with the account's. */
  function Kept(es: seq<Entry>, uri: string): (r: seq<Entry>)
    ensures |r| <= |es|
  {
    if es == [] then []
    else
      var init, e := es[..|es| - 1], es[|es| - 1];
      if e.accountUri == uri then Kept(init, uri) + [e] else Kept(init, uri)
  }

  /** The kept entries are exactly the entries that post to `uri`. */
  lemma {:induction false} KeptMembers(es: seq<Entry>, uri: string)
    ensures forall e :: e in Kept(es, uri) <==> e in es && e.accountUri == uri
  {
    if es != [] {
      var init, e := es[..|es| - 1], es[|es| - 1];
      KeptMembers(init, uri);
      assert forall x :: x in es <==> x in init || x == e;
    }
  }

  /** Keeping distributes over concatenation, so the kept entries stay in order. */
  lemma {:induction false} KeptAppend(a: seq<Entry>, b: seq<Entry>, uri: string)
    ensures Kept(a + b, uri) == Kept(a, uri) + Kept(b, uri)
  {
    if b == [] {
      assert a + b == a;
    } else {
      var init := b[..|b| - 1];
      assert (a + b)[..|a + b| - 1] == a + init;
      KeptAppend(a, init, uri);
    }
  }

  /** Reading `entries` a second time removes nothing more. */
  lemma {:induction false} KeptTwice(es: seq<Entry>, uri: string)
    ensures Kept(Kept(es, uri), uri) == Kept(es, uri)
  {
    if es != [] {
      var init, e := es[..|es| - 1], es[|es| - 1];
      KeptTwice(init, uri);
      if e.accountUri == uri {
        KeptAppend(Kept(init, uri), [e], uri);
      }
    }
  }

  /** Entries that all post to the account are all kept. */
  lemma {:induction false} KeptAll(es: seq<Entry>, uri: string)
    requires forall i :: 0 <= i < |es| ==> es[i].accountUri == uri
    ensures Kept(es, uri) == es
  {
    if es != [] {
      KeptAll(es[..|es| - 1], uri);
    }
  }

  /** Keeping one more entry of es. */
  lemma KeptNext(es: seq<Entry>, i: nat, uri: string)
    requires i < |es|
    ensures Kept(es[..i + 1], uri) == Kept(es[..i], uri) + (if es[i].accountUri == uri then [es[i]] else [])
  {
    assert es[..i + 1][..i] == es[..i];
  }

  /** The write `entries[length] = entry` of the `entries` getter, skipped when `index` is
      `length`, keeps its loop invariant. */
  lemma Written(original: seq<Entry>, before: seq<Entry>, after: seq<Entry>, length: nat, i: nat, uri: string)
    requires |before| == |original| && length <= i < |original|
    requires before[..length] == Kept(original[..i], uri) && before[i..] == original[i..]
    requires original[i].accountUri == uri
    requires after == if i != length then before[length := original[i]] else before
    ensures |after| == |original|
    ensures after[..length + 1] == Kept(original[..i + 1], uri)
    ensures after[i + 1..] == original[i + 1..]
  {
    assert before[i] == original[i];
    KeptNext(original, i, uri);
    assert after[..length + 1] == before[..length] + [original[i]];
    assert after[i + 1..] == before[i..][1..];
  }

  /** An entry of another account is passed over. */
  lemma Skipped(original: seq<Entry>, es: seq<Entry>, length: nat, i: nat, uri: string)
    requires |es| == |original| && length <= i < |original|
    requires es[..length] == Kept(original[..i], uri) && es[i..] == original[i..]
    requires es[i].accountUri != uri
    ensures es[..length] == Kept(original[..i + 1], uri)
    ensures es[i + 1..] == original[i + 1..]
  {
    assert es[i] == original[i];
    KeptNext(original, i, uri);
    assert es[i + 1..] == es[i..][1..];
  }

  // The balance

  /** What `balance` reads of an entry: its commodity and its amount. */
  function Posting(e: Entry): (Commodity, Amount) {
    (e.value.commodity, AmountOfEntry(e))
  }

  /** The postings of the entries, in order. */
  function Postings(es: seq<Entry>): (ps: seq<(Commodity, Amount)>)
    ensures |ps| == |es| && forall i :: 0 <= i < |es| ==> ps[i] == Posting(es[i])
  {
    seq(|es|, i requires 0 <= i < |es| => Posting(es[i]))
  }

  /** Every amount is written at its commodity's grain exponent, as a value's amount is. */
  predicate Grained(ps: seq<(Commodity, Amount)>) {
    forall i :: 0 <= i < |ps| ==> ps[i].1.exponent == ps[i].0.unit.exponent
  }

  /** The amounts of entries are written at their grain's exponent. */
  lemma PostingsGrained(es: seq<Entry>)
    ensures Grained(Postings(es))
  {
    forall i | 0 <= i < |es|
      ensures Postings(es)[i].1.exponent == Postings(es)[i].0.unit.exponent
    {
      assert Postings(es)[i] == Posting(es[i]);
    }
  }

  /** `balance.set(commodity, amount.plus(balance.get(commodity) ?? 0))`, where the number 0
      reads as `Zero`. */
  function AddedAmount(m: seq<(Commodity, Amount)>, p: (Commodity, Amount)): seq<(Commodity, Amount)> {
    Set(m, p.0, Plus(p.1, OrderedMaps.Get(m, p.0, Zero)))
  }

  /** The map `balance` builds from the postings, in order. */
  function Totals(ps: seq<(Commodity, Amount)>): seq<(Commodity, Amount)> {
    if ps == [] then [] else AddedAmount(Totals(ps[..|ps| - 1]), ps[|ps| - 1])
  }

  /** Some posting is in commodity c. */
  predicate Posts(ps: seq<(Commodity, Amount)>, c: Commodity) {
    exists i :: 0 <= i < |ps| && ps[i].0 == c
  }

  lemma PostsLast(ps: seq<(Commodity, Amount)>)
    requires ps != []
    ensures forall c :: Posts(ps, c) <==> Posts(ps[..|ps| - 1], c) || ps[|ps| - 1].0 == c
  {
    var init := ps[..|ps| - 1];
    forall c | Posts(ps, c)
      ensures Posts(init, c) || ps[|ps| - 1].0 == c
    {
      var i :| 0 <= i < |ps| && ps[i].0 == c;
      if i < |init| {
        assert init[i].0 == c;
      }
    }
    forall c | Posts(init, c)
      ensures Posts(ps, c)
    {
      var i :| 0 <= i < |init| && init[i].0 == c;
      assert ps[i].0 == c;
    }
  }

  /** The sum of the signed coefficients of the amounts posted in commodity c. */
  function AmountSum(ps: seq<(Commodity, Amount)>, c: Commodity): int {
    if ps == [] then 0
    else
      var p := ps[|ps| - 1];
      AmountSum(ps[..|ps| - 1], c) + (if p.0 == c then Signed(p.1) else 0)
  }

  /** A commodity nothing is posted in sums to zero. */
  lemma {:induction false} AmountSumUnposted(ps: seq<(Commodity, Amount)>, c: Commodity)
    requires !Posts(ps, c)
    ensures AmountSum(ps, c) == 0
  {
    if ps != [] {
      PostsLast(ps);
      AmountSumUnposted(ps[..|ps| - 1], c);
    }
  }

  /** The exponent the total of commodity c is written at: `plus` takes the smaller exponent,
      and the first total is added to the number 0, at exponent 0. */
  function TotalExponent(c: Commodity): int {
    Min(c.unit.exponent, 0)
  }

  /** The total `balance` holds for c, or `Zero` when it holds none. */
  function Total(ps: seq<(Commodity, Amount)>, c: Commodity): Amount {
    OrderedMaps.Get(Totals(ps), c, Zero)
  }

  /** The power of ten that rescales c's grain exponent to `TotalExponent(c)`. */
  function Shift(c: Commodity): nat {
    Pow10(c.unit.exponent - TotalExponent(c))
  }

  lemma Distribute(a: int, b: int, x: int)
    ensures (a + b) * x == a * x + b * x
  {
  }

  /** `balance` (src/core/Account.ts:33-42) holds each commodity posted once and nothing
      else. */
  lemma {:induction false} TotalsKeys(ps: seq<(Commodity, Amount)>)
    ensures Distinct(Totals(ps))
    ensures forall c :: IndexOf(Totals(ps), c).Some? <==> Posts(ps, c)
  {
    if ps != [] {
      var init, p := ps[..|ps| - 1], ps[|ps| - 1];
      var m := Totals(init);
      TotalsKeys(init);
      SetKeys(m, p.0, Plus(p.1, OrderedMaps.Get(m, p.0, Zero)));
      PostsLast(ps);
    }
  }

  /** The total `balance` holds for each commodity is the exact sum of the amounts posted in it,
      written at `TotalExponent`. */
  lemma {:induction false} TotalsSum(ps: seq<(Commodity, Amount)>)
    requires Grained(ps)
    ensures forall c :: Posts(ps, c) ==> Total(ps, c).exponent == TotalExponent(c)
    ensures forall c :: Posts(ps, c) ==> Signed(Total(ps, c)) == AmountSum(ps, c) * Shift(c)
  {
    if ps != [] {
      var init := ps[..|ps| - 1];
      TotalsSum(init);
      TotalsKeys(init);
      PostsLast(ps);
      forall d | Posts(ps, d)
        ensures Total(ps, d).exponent == TotalExponent(d)
        ensures Signed(Total(ps, d)) == AmountSum(ps, d) * Shift(d)
      {
        TotalAt(ps, d);
      }
    }
  }

  /** What `TotalsSum` states of the postings before the last one, for commodity d. */
  predicate TotalsBefore(ps: seq<(Commodity, Amount)>, d: Commodity)
    requires ps != []
  {
    var init := ps[..|ps| - 1];
    && (IndexOf(Totals(init), d).Some? <==> Posts(init, d))
    && (Posts(init, d) ==> Total(init, d).exponent == TotalExponent(d))
    && (Posts(init, d) ==> Signed(Total(init, d)) == AmountSum(init, d) * Shift(d))
  }

  /** One step of `TotalsSum`, for one commodity. */
  lemma TotalAt(ps: seq<(Commodity, Amount)>, d: Commodity)
    requires ps != [] && Grained(ps) && Posts(ps, d) && TotalsBefore(ps, d)
    ensures Total(ps, d).exponent == TotalExponent(d)
    ensures Signed(Total(ps, d)) == AmountSum(ps, d) * Shift(d)
  {
    if d == ps[|ps| - 1].0 {
      TotalAtLast(ps);
    } else {
      TotalAtOther(ps, d);
    }
  }

  /** The commodity of the last posting: its total is the previous one plus the amount. */
  lemma TotalAtLast(ps: seq<(Commodity, Amount)>)
    requires ps != [] && Grained(ps) && TotalsBefore(ps, ps[|ps| - 1].0)
    ensures var d := ps[|ps| - 1].0;
            && Total(ps, d).exponent == TotalExponent(d)
            && Signed(Total(ps, d)) == AmountSum(ps, d) * Shift(d)
  {
    var init, p := ps[..|ps| - 1], ps[|ps| - 1];
    var d := p.0;
    var m := Totals(init);
    var prev := OrderedMaps.Get(m, d, Zero);
    var next := Plus(p.1, prev);
    SetGet(m, d, next, d, Zero);
    assert Total(ps, d) == next;
    if !Posts(init, d) {
      AmountSumUnposted(init, d);
    }
    assert p.1.exponent == d.unit.exponent;
    assert AmountSum(ps, d) == AmountSum(init, d) + Signed(p.1);
    TotalStep(p.1, prev, d, Posts(init, d), AmountSum(init, d), AmountSum(ps, d));
  }

  /** Any other commodity: its total and its sum are unchanged. */
  lemma TotalAtOther(ps: seq<(Commodity, Amount)>, d: Commodity)
    requires ps != [] && Posts(ps, d) && d != ps[|ps| - 1].0 && TotalsBefore(ps, d)
    ensures Total(ps, d).exponent == TotalExponent(d)
    ensures Signed(Total(ps, d)) == AmountSum(ps, d) * Shift(d)
  {
    var init, p := ps[..|ps| - 1], ps[|ps| - 1];
    var m := Totals(init);
    SetGet(m, p.0, Plus(p.1, OrderedMaps.Get(m, p.0, Zero)), d, Zero);
    assert Total(ps, d) == Total(init, d);
    assert AmountSum(ps, d) == AmountSum(init, d);
    PostsLast(ps);
  }

  /** The step of `TotalsSum` for the commodity of the posting added: the previous total is
      either the running total or, for a commodity not yet posted, `Zero`. */
  lemma TotalStep(a: Amount, prev: Amount, c: Commodity, posted: bool, sum: int, total: int)
    requires a.exponent == c.unit.exponent && total == sum + Signed(a)
    requires posted ==> prev.exponent == TotalExponent(c) && Signed(prev) == sum * Shift(c)
    requires !posted ==> prev == Zero && sum == 0
    ensures Plus(a, prev).exponent == TotalExponent(c)
    ensures Signed(Plus(a, prev)) == total * Shift(c)
  {
    var e, p := TotalExponent(c), Shift(c);
    if posted {
      assert Pow10(0) == 1;
      assert Scaled(prev, e) == Signed(prev);
    } else {
      ZeroIsZero();
      assert Scaled(prev, e) == 0 * Pow10(prev.exponent - e);
    }
    var r := Plus(a, prev);
    assert r.exponent == e;
    assert Signed(r) == Scaled(a, e) + Scaled(prev, e);
    assert p == Pow10(a.exponent - e);
    assert Scaled(prev, e) == sum * p;
    SumStep(a, prev, r, e, sum, p);
    assert (sum + Signed(a)) * p == total * p;
  }

  /** `plus` at exponent e of an amount rescaled by p and a total of sum rescaled by p. */
  lemma SumStep(a: Amount, prev: Amount, r: Amount, e: int, sum: int, p: nat)
    requires e <= a.exponent && e <= prev.exponent && p == Pow10(a.exponent - e)
    requires Signed(r) == Scaled(a, e) + Scaled(prev, e)
    requires Scaled(prev, e) == sum * p
    ensures Signed(r) == (sum + Signed(a)) * p
  {
    Distribute(sum, Signed(a), p);
  }

  lemma MulZero(x: int, y: int)
    requires y >= 1
    ensures x * y == 0 <==> x == 0
  {
  }

  /** Every total is zero: the test `isEmpty` evidently intends. */
  predicate AllTotalsZero(m: seq<(Commodity, Amount)>) {
    forall i :: 0 <= i < |m| ==> IsZero(m[i].1)
  }

  /** The amounts posted in each commodity sum to zero. */
  ghost predicate Balanced(ps: seq<(Commodity, Amount)>) {
    forall c :: Posts(ps, c) ==> AmountSum(ps, c) == 0
  }

  /** The totals are all zero exactly when the amounts of every commodity sum to zero. */
  lemma TotalsZero(ps: seq<(Commodity, Amount)>)
    requires Grained(ps)
    ensures AllTotalsZero(Totals(ps)) <==> Balanced(ps)
  {
    var m := Totals(ps);
    TotalsKeys(ps);
    TotalsSum(ps);
    if AllTotalsZero(m) {
      forall c | Posts(ps, c)
        ensures AmountSum(ps, c) == 0
      {
        var i := IndexOf(m, c).value;
        assert IsZero(m[i].1);
        MulZero(AmountSum(ps, c), Shift(c));
      }
    }
    if Balanced(ps) {
      forall i | 0 <= i < |m|
        ensures IsZero(m[i].1)
      {
        var c := m[i].0;
        assert IndexOf(m, c) == Some(i) by {
          var k := IndexOf(m, c).value;
          assert k == i;
        }
        MulZero(AmountSum(ps, c), Shift(c));
      }
    }
  }

  /** `isEmpty` as written (src/core/Account.ts:54-57): every total `equals(0)`, and the
      number 0 reads as "0e+0", so every total must be structurally `Zero`. */
  predicate EmptyAsWritten(m: seq<(Commodity, Amount)>) {
    forall i :: 0 <= i < |m| ==> Equals(m[i].1, Text("0e+0")) == Ok(true)
  }

  /** As written, an account with anything posted in a commodity whose grain is finer than 1 is
      never empty, since that total is written at a negative exponent, even when it is zero. */
  lemma EmptyAsWrittenNeedsWholeGrains(ps: seq<(Commodity, Amount)>, c: Commodity)
    requires Grained(ps) && Posts(ps, c) && c.unit.exponent < 0
    ensures !EmptyAsWritten(Totals(ps))
  {
    var m := Totals(ps);
    TotalsKeys(ps);
    TotalsSum(ps);
    ZeroLiteral();
    var i := IndexOf(m, c).value;
    assert m[i].1.exponent < 0;
  }

  /** An amount posted and taken back out again in a commodity with grain 0.01 leaves a zero
      total, which `isEmpty` as written does not accept and the corrected test does. */
  lemma ZeroTotalNotEmptyAsWritten(c: Commodity, a: Amount, b: Amount)
    requires c.unit.exponent == -2 && a.exponent == -2 && b.exponent == -2
    requires Signed(b) == -Signed(a)
    ensures var ps := [(c, a), (c, b)];
            Balanced(ps) && AllTotalsZero(Totals(ps)) && !EmptyAsWritten(Totals(ps))
  {
    var ps := [(c, a), (c, b)];
    assert ps[..1] == [(c, a)] && [(c, a)][..0] == [];
    assert AmountSum([(c, a)], c) == Signed(a);
    assert AmountSum(ps, c) == Signed(a) + Signed(b);
    assert Posts(ps, c) by { assert ps[0].0 == c; }
    forall d | Posts(ps, d)
      ensures d == c
    {
    }
    TotalsZero(ps);
    EmptyAsWrittenNeedsWholeGrains(ps, c);
  }

  /** The test `isEmpty` applies to an account's entries (corrected: every total is zero). */
  predicate Empty(es: seq<Entry>) {
    AllTotalsZero(Totals(Postings(es)))
  }

  /** An account is empty exactly when the amounts of its entries in each commodity sum to
      zero. */
  lemma EmptyIffBalanced(es: seq<Entry>)
    ensures Empty(es) <==> Balanced(Postings(es))
  {
    PostingsGrained(es);
    TotalsZero(Postings(es));
  }

  /** The `every` of `isEmpty`, with the corrected test: stops at the first total that is not
      zero. */
  method EveryZero(m: seq<(Commodity, Amount)>) returns (r: bool)
    ensures r <==> AllTotalsZero(m)
  {
    var i := 0;
    while i < |m| && IsZero(m[i].1)
      invariant i <= |m| && forall j :: 0 <= j < i ==> IsZero(m[j].1)
    {
      i := i + 1;
    }
    r := i == |m|;
  }

  /** `Account`: the URI and name are fixed at construction; `entries` is `_entries`. */
  class Account {
    const uri: string
    const name: string
    var active: bool
    var entries: seq<Entry>

    /** A new account is inactive and has no entries (src/core/Account.ts:59-68, 16-17). */
    constructor(uri: string, name: string)
      ensures this.uri == uri && this.name == name && !active && entries == []
    {
      this.uri := uri;
      this.name := name;
      active := false;
      entries := [];
    }

    /** The `entries` getter (src/core/Account.ts:21-31): moves each entry that posts to this
        account down to the next free place, in order, then truncates the array. */
    method Entries() returns (r: seq<Entry>)
      modifies this
      ensures entries == Kept(old(entries), uri) && r == entries
      ensures active == old(active)
    {
      ghost var original := entries;
      var length := 0;
      var i := 0;
      while i < |entries|
        invariant |entries| == |original| && length <= i <= |original|
        invariant entries[..length] == Kept(original[..i], uri)
        invariant entries[i..] == original[i..]
        invariant active == old(active)
      {
        var e := entries[i];
        if e.accountUri == uri {
          var before := entries;
          if i != length {
            entries := entries[length := e];
          }
          Written(original, before, entries, length, i, uri);
          length := length + 1;
        } else {
          Skipped(original, entries, length, i, uri);
        }
        i := i + 1;
      }
      assert original[..i] == original;
      entries := entries[..length];
      r := entries;
    }

    /** The `balance` getter (src/core/Account.ts:33-42): reads `entries`, then adds each
        entry's amount to the total of its commodity, starting from the number 0. */
    method Balance() returns (r: seq<(Commodity, Amount)>)
      modifies this
      ensures entries == Kept(old(entries), uri) && active == old(active)
      ensures r == Totals(Postings(entries))
    {
      var es := Entries();
      r := [];
      for i := 0 to |es|
        invariant r == Totals(Postings(es[..i]))
      {
        assert Postings(es[..i + 1])[..i] == Postings(es[..i]);
        r := AddedAmount(r, (es[i].value.commodity, AmountOfEntry(es[i])));
      }
      assert es[..|es|] == es;
    }

    /** The account's state as a value. */
    /** The iterator's test `account.active || !account.isEmpty()` (src/core/Account.ts:87):
        only an inactive account is asked, and asking compacts its entries. */
    method Shows() returns (shown: bool)
      modifies this
      ensures Record() == Asked(old(Record()), uri)
      ensures shown == Visible(old(Record()), uri)
    {
      if active {
        return true;
      }
      var empty := IsEmpty();
      return !empty;
    }

    ghost function Record(): (r: AccountRecord)
      reads this
      ensures r.active == active && r.entries == entries
    {
      AccountRecord(active, entries)
    }

    /** `isEmpty` (src/core/Account.ts:54-57), corrected: every total `isZero`. */
    method IsEmpty() returns (r: bool)
      modifies this
      ensures entries == Kept(old(entries), uri) && active == old(active)
      ensures r <==> Empty(entries)
    {
      var totals := Balance();
      r := EveryZero(totals);
    }

    /** `open` (src/core/Account.ts:44-47): refused unless the account is empty; it does not
        look at `active`, so opening an open account succeeds. */
    method Open() returns (o: Outcome)
      modifies this
      ensures entries == Kept(old(entries), uri)
      ensures Empty(entries) ==> o == Pass && active
      ensures !Empty(entries) ==> o == Fail(PlainError(OpenNotEmpty)) && active == old(active)
    {
      var empty := IsEmpty();
      if !empty {
        return Fail(PlainError(OpenNotEmpty));
      }
      active := true;
      return Pass;
    }

    /** `close` (src/core/Account.ts:49-52): refused unless the account is empty. */
    method Close() returns (o: Outcome)
      modifies this
      ensures entries == Kept(old(entries), uri)
      ensures Empty(entries) ==> o == Pass && !active
      ensures !Empty(entries) ==> o == Fail(PlainError(CloseNotEmpty)) && active == old(active)
    {
      var empty := IsEmpty();
      if !empty {
        return Fail(PlainError(CloseNotEmpty));
      }
      active := false;
      return Pass;
    }

    /** `account.entries.push(entry)` (src/core/commit/Transaction.ts:48): the getter runs
        first, then the entry goes last. */
    method Push(e: Entry)
      modifies this
      ensures entries == Kept(old(entries), uri) + [e] && active == old(active)
    {
      var _ := Entries();
      entries := entries + [e];
    }
  }

  // The URI library and the instance registry

  /** The parts of the URI library the registry uses: `URI.normalize`, the `path` that
      `URI.parse` finds (empty when it finds none), and `decodeURIComponent`, which fails on
      malformed escapes. */
  datatype UriLib = UriLib(normalize: string -> string, path: string -> string, decode: string -> Option<string>)

  /** `seg` is the last segment of the path `p`: a suffix with no '/' that is either the
      whole path or follows a '/'. */
  predicate IsLastSegment(p: string, seg: string) {
    && '/' !in seg && |seg| <= |p| && seg == p[|p| - |seg|..]
    && (|seg| < |p| ==> p[|p| - |seg| - 1] == '/')
  }

  /** A path has one last segment. */
  lemma LastSegmentUnique(p: string, a: string, b: string)
    requires IsLastSegment(p, a) && IsLastSegment(p, b)
    ensures a == b
  {
    SegmentHasNoSlash(p, a);
    SegmentHasNoSlash(p, b);
  }

  /** No '/' stands in the part of the path its last segment covers. */
  lemma SegmentHasNoSlash(p: string, seg: string)
    requires IsLastSegment(p, seg)
    ensures forall k :: |p| - |seg| <= k < |p| ==> p[k] != '/'
  {
    forall k | |p| - |seg| <= k < |p|
      ensures p[k] != '/'
    {
      assert p[k] == seg[k - (|p| - |seg|)];
    }
  }

  /** `path.split('/').slice(-1)[0]`: what follows the last '/', or the whole path. */
  function LastSegment(p: string): (r: string)
    ensures IsLastSegment(p, r)
  {
    if p == [] || p[|p| - 1] == '/' then []
    else
      var r := LastSegment(p[..|p| - 1]);
      assert p[..|p| - 1][|p| - 1 - |r|..] == p[|p| - 1 - |r|..|p| - 1];
      r + [p[|p| - 1]]
  }

  /** `getNameFromURI` (src/core/Account.ts:93-97): a URI with no path is a SyntaxError;
      otherwise the name is the last segment of the path, URI-decoded, and a malformed escape
      in that segment is a URIError. */
  function NameFromUri(lib: UriLib, uri: string): (r: Result<string>)
    ensures lib.path(uri) == [] ==> r == Err(SyntaxError(NoPath))
    ensures forall seg :: lib.path(uri) != [] && IsLastSegment(lib.path(uri), seg) ==>
              r == match lib.decode(seg)
                   case None => Err(URIError(MalformedUri))
                   case Some(name) => Ok(name)
  {
    var path := lib.path(uri);
    if path == [] then Err(SyntaxError(NoPath))
    else
      var last := LastSegment(path);
      assert forall seg :: IsLastSegment(path, seg) ==> seg == last by {
        forall seg | IsLastSegment(path, seg) ensures seg == last { LastSegmentUnique(path, seg, last); }
      }
      match lib.decode(last)
      case None => Err(URIError(MalformedUri))
      case Some(name) => Ok(name)
  }

  /** An account's state as a value: its active flag and its entries. */
  datatype AccountRecord = AccountRecord(active: bool, entries: seq<Entry>)

  /** The record once the entries of other accounts are dropped. */
  function Compacted(r: AccountRecord, uri: string): (c: AccountRecord)
    ensures c.active == r.active
    ensures forall e :: e in c.entries <==> e in r.entries && e.accountUri == uri
  {
    KeptMembers(r.entries, uri);
    AccountRecord(r.active, Kept(r.entries, uri))
  }

  /** The accounts registered under us that the iterator yields, judged on their recorded state:
      active, or empty once their entries are compacted. */
  function Shown(us: seq<string>, accounts: map<string, Account>, records: map<string, AccountRecord>): (r: seq<Account>)
    ensures forall a :: a in r ==> exists u :: u in us && u in accounts && accounts[u] == a
  {
    if us == [] then []
    else
      var init, u := us[..|us| - 1], us[|us| - 1];
      var rest := Shown(init, accounts, records);
      if u in accounts && u in records && Visible(records[u], u)
      then rest + [accounts[u]]
      else rest
  }

  /** The record after the iterator's test: `account.active || !account.isEmpty()` asks an
      inactive account only, and asking compacts its entries. */
  function Asked(r: AccountRecord, u: string): (a: AccountRecord)
    ensures a.active == r.active
    ensures r.active ==> a == r
    ensures !r.active ==> a == Compacted(r, u)
  {
    if r.active then r else Compacted(r, u)
  }

  /** The iterator's test: active, or not empty once compacted. */
  predicate Visible(r: AccountRecord, u: string) {
    r.active || !Empty(Kept(r.entries, u))
  }

  lemma ShownNext(us: seq<string>, i: nat, accounts: map<string, Account>, records: map<string, AccountRecord>)
    requires i < |us| && us[i] in accounts && us[i] in records
    ensures var u := us[i];
            Shown(us[..i + 1], accounts, records) ==
              Shown(us[..i], accounts, records)
              + (if Visible(records[u], u) then [accounts[u]] else [])
  {
    assert us[..i + 1][..i] == us[..i];
  }

  /** In a sequence without repeats, no element occurs before its own position. */
  lemma NotBefore(keys: seq<string>, i: nat)
    requires i < |keys| && forall j, k :: 0 <= j < k < |keys| ==> keys[j] != keys[k]
    ensures keys[i] !in keys[..i]
  {
  }

  /** One turn of the iterator's loop: the account under `keys[i]` is tested, and listed when
      it shows. */
  method ListStep(registered: map<string, Account>, keys: seq<string>, i: nat,
                  ghost records: map<string, AccountRecord>, accounts: seq<Account>)
    returns (next: seq<Account>)
    requires i < |keys| && keys[i] in registered && keys[i] !in keys[..i]
    requires forall v :: v in registered ==> v in records && registered[v].uri == v
    requires forall v :: v in registered ==>
               registered[v].Record() == if v in keys[..i] then Asked(records[v], v) else records[v]
    requires accounts == Shown(keys[..i], registered, records)
    modifies registered[keys[i]]
    ensures forall v :: v in registered ==>
              registered[v].Record() == if v in keys[..i + 1] then Asked(records[v], v) else records[v]
    ensures next == Shown(keys[..i + 1], registered, records)
  {
    var a := registered[keys[i]];
    assert forall v :: v in keys[..i + 1] <==> v in keys[..i] || v == keys[i];
    ShownNext(keys, i, registered, records);
    var shown := a.Shows();
    next := if shown then accounts + [a] else accounts;
  }

  /** What `toAccount` is given: an `Account`, or a URI with an optional name (a string, or an
      `{uri, name}` object). */
  datatype AccountArg = Given(account: Account) | Described(uri: string, name: Option<string>)

  /** `Account.instances` (src/core/Account.ts:19), the static map from normalised URI to the
      one account of that URI, in insertion order. */
  class AccountRegistry {
    const lib: UriLib
    var instances: map<string, Account>
    var order: seq<string>

    /** Every account is registered under its own URI, and `order` lists each key once. */
    ghost predicate Valid()
      reads this
    {
      && (forall u :: u in instances ==> instances[u].uri == u)
      && (forall i, j :: 0 <= i < j < |order| ==> order[i] != order[j])
      && (forall u :: u in instances <==> u in order)
    }

    constructor(lib: UriLib)
      ensures Valid() && this.lib == lib && instances == map[] && order == []
    {
      this.lib := lib;
      instances := map[];
      order := [];
    }

    /** The `Account` constructor (src/core/Account.ts:59-68): normalises the URI, refuses a
        URI already registered, and registers the new, inactive and empty account. */
    method NewAccount(uri: string, name: string) returns (r: Result<Account>)
      requires Valid()
      modifies this
      ensures Valid()
      ensures var u := lib.normalize(uri);
              u in old(instances) ==> r == Err(RangeError(DuplicateUri)) && instances == old(instances) && order == old(order)
      ensures var u := lib.normalize(uri);
              u !in old(instances) ==>
                && r.Ok? && fresh(r.value)
                && r.value.uri == u && r.value.name == name && !r.value.active && r.value.entries == []
                && instances == old(instances)[u := r.value] && order == old(order) + [u]
    {
      var u := lib.normalize(uri);
      if u in instances {
        return Err(RangeError(DuplicateUri));
      }
      var a := new Account(u, name);
      instances := instances[u := a];
      order := order + [u];
      return Ok(a);
    }

    /** `fromURI` (src/core/Account.ts:78-83): the registered account of the normalised URI,
        whatever name is asked for; otherwise a new account named `name`, or, when that is
        absent or empty, after the URI's last path segment. The constructor normalises the URI
        a second time. */
    method FromUri(uri: string, name: Option<string>) returns (r: Result<Account>)
      requires Valid()
      modifies this
      ensures Valid()
      ensures var u := lib.normalize(uri);
              u in old(instances) ==> r == Ok(old(instances)[u]) && instances == old(instances) && order == old(order)
      ensures var u := lib.normalize(uri);
              u !in old(instances) && (name.None? || name.value == []) && NameFromUri(lib, u).Err? ==>
                r == Err(NameFromUri(lib, u).error) && instances == old(instances) && order == old(order)
      ensures var u := lib.normalize(uri);
              var n := if name.Some? && name.value != [] then Ok(name.value) else NameFromUri(lib, u);
              u !in old(instances) && n.Ok? ==>
                if lib.normalize(u) in old(instances) then
                  r == Err(RangeError(DuplicateUri)) && instances == old(instances) && order == old(order)
                else
                  && r.Ok? && fresh(r.value) && r.value.uri == lib.normalize(u) && r.value.name == n.value
                  && !r.value.active && r.value.entries == []
                  && instances == old(instances)[lib.normalize(u) := r.value]
                  && order == old(order) + [lib.normalize(u)]
    {
      var u := lib.normalize(uri);
      if u in instances {
        return Ok(instances[u]);
      }
      var n: string;
      if name.Some? && name.value != [] {
        n := name.value;
      } else {
        var derived := NameFromUri(lib, u);
        if derived.Err? {
          return Err(derived.error);
        }
        n := derived.value;
      }
      r := NewAccount(u, n);
    }

    /** The iterator (src/core/Account.ts:85-90): the registered accounts, in registration
        order, that are active or not empty. Only an inactive account is asked whether it is
        empty, which compacts its entries and changes nothing else. */
    method Listed() returns (accounts: seq<Account>)
      requires Valid()
      modifies instances.Values
      ensures forall u :: u in instances ==> instances[u].Record() == Asked(old(Records())[u], u)
      ensures accounts == Shown(order, instances, old(Records()))
    {
      ghost var records := Records();
      var registered, keys := instances, order;
      accounts := [];
      var i := 0;
      while i < |keys|
        invariant i <= |keys|
        invariant forall v :: v in registered ==> registered[v].uri == v
        invariant forall v :: v in registered ==>
                    registered[v].Record() == if v in keys[..i] then Asked(records[v], v) else records[v]
        invariant accounts == Shown(keys[..i], registered, records)
      {
        NotBefore(keys, i);
        accounts := ListStep(registered, keys, i, records, accounts);
        i := i + 1;
      }
      assert keys[..i] == keys;
    }

    /** The active flag and entries of every registered account. */
    ghost function Records(): (r: map<string, AccountRecord>)
      reads this, instances.Values
      ensures r.Keys == instances.Keys
    {
      map u | u in instances :: AccountRecord(instances[u].active, instances[u].entries)
    }

    /** `toAccount` (src/core/Account.ts:70-76): an account is returned as it is; a URI, with
        its name, goes through `fromURI`. */
    method ToAccount(value: AccountArg) returns (r: Result<Account>)
      requires Valid()
      modifies this
      ensures Valid()
      ensures value.Given? ==> r == Ok(value.account) && instances == old(instances) && order == old(order)
      ensures value.Described? && lib.normalize(value.uri) in old(instances) ==>
                r == Ok(old(instances)[lib.normalize(value.uri)]) && instances == old(instances) && order == old(order)
      ensures value.Described? ==>
              var u := lib.normalize(value.uri);
              u !in old(instances) && (value.name.None? || value.name.value == []) && NameFromUri(lib, u).Err? ==>
                r == Err(NameFromUri(lib, u).error) && instances == old(instances) && order == old(order)
      ensures value.Described? ==>
              var u := lib.normalize(value.uri);
              var n := if value.name.Some? && value.name.value != [] then Ok(value.name.value) else NameFromUri(lib, u);
              u !in old(instances) && n.Ok? ==>
                if lib.normalize(u) in old(instances) then
                  r == Err(RangeError(DuplicateUri)) && instances == old(instances) && order == old(order)
                else
                  && r.Ok? && fresh(r.value) && r.value.uri == lib.normalize(u) && r.value.name == n.value
                  && !r.value.active && r.value.entries == []
                  && instances == old(instances)[lib.normalize(u) := r.value]
                  && order == old(order) + [lib.normalize(u)]
    {
      match value
      case Given(a) =>
        return Ok(a);
      case Described(uri, name) =>
        r := FromUri(uri, name);
    }
  }
}
