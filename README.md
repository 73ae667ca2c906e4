# Ledger core in Dafny

A model of the bookkeeping core of a small double-entry ledger written in TypeScript
(`src/core`). The core has four layers:

- `Amount` is an exact signed decimal: a sign, a digit-string coefficient and an integer exponent,
  kept normalised. It has a hand-written numeric grammar and arithmetic that prints
  `${k}e${m}` and parses it again.
- `Commodity` is a registry of grain rules (pattern → grain) plus a cache of resolved
  commodities. A `Value` is a whole number of grains of one commodity. A `Balance` sums
  quantities per commodity.
- `Account` is one object per normalised URI, with an active flag and an entry list that is
  compacted in place. `State` maps URIs to accounts and is either frozen or mutable.
- A chain of commits (`Open`, `Close`, `Transaction`), each naming its parent. A commit's state
  is found by replaying `apply` from the root.

Modules, in dependency order:

| module | file | models |
|---|---|---|
| `Wrappers` | wrappers.dfy | the exceptions the core throws, as `Result`/`Outcome` values |
| `Digits` | digits.dfy | digit strings and the naturals they denote |
| `Numerals` | numerals.dfy | the numeric grammar of `fromString`, its renderer and recogniser |
| `Amounts` | amounts.dfy | `Amount`: construction, parsing, arithmetic, `equals` |
| `AmountText` | amount_text.dfy | normal and scientific notation, `toBigInt`, `isInteger` |
| `AmountExamples` | amount_examples.dfy | cases of `src/core/Amount.test.ts` |
| `OrderedMaps` | ordered_maps.dfy | an insertion-ordered JavaScript `Map` as a sequence of pairs |
| `Commodities` | commodities.dfy | the commodity registry (a class) and `quantize` |
| `Values` | values.dfy | `Value` and its string form |
| `Balances` | balances.dfy | `Balance` |
| `Entries` | entries.dfy | `Entry` |
| `Accounts` | accounts.dfy | `Account` (a class) and its per-URI registry (a class) |
| `States` | states.dfy | `State` / `MutableState` (a class holding `Account` objects) |
| `Commits` | commits.dfy | the commit chain: snapshot semantics, `apply` on state objects, replay |

Objects that the source updates in place are Dafny classes: `Account`, the account registry,
the commodity registry and `State`. Their methods are proved against functions over values.
For example, `Account.Entries` compacts the entry list in place with a loop, and its `ensures`
ties the result to `Kept`. `ApplyTransaction` pushes onto shared `Account` objects, and its
`ensures` ties the new state to `Posted` over a value snapshot. Frozen records (`Amount`,
`Commodity`, `Value`, `Entry`, commits) are datatypes.

The commit chain is an arena: a sequence of commits in which every parent has a smaller index.
A parent that is fixed at construction guarantees this, and it makes the replay terminate.

Several helpers are called by the commit files but are defined in none of the files modelled:
`State.getMutable`, `State.getImmutable`, `state.get` and `Account.getURI`. The model takes
them to be, respectively:

- `MutableState.getCopy`;
- `save`;
- a lookup that inserts a new, inactive, empty account when the URI is missing;
- normalisation of the URI the argument carries.

Behaviour of the code that the model keeps:

- `equals` is structural and does not normalise the scale.
- `toJSON` of an entry prints the amount in scientific notation (the default of `toString`),
  not in normal notation.
- `a.plus(b).minus(b)` equals `a` numerically, but not structurally when `b` has the smaller
  exponent.

`quantize` is modelled corrected: it counts whole grains and refuses any other amount. As
written, `divide` truncates the quotient of the coefficients without lining up the exponents.
A non-multiple is then truncated when the exponents line up (7 in grain 5 gives 1), and refused
by `toBigInt` when the quotient keeps a fraction (0.5 in grain 1). See Findings.

## Model

| member | source | states |
|---|---|---|
| Digits.NatToString | src/core/Amount.ts:26 | the decimal text of a bigint is a canonical digit string denoting that number |
| Digits.StripLeadingZerosCorrect | src/core/Amount.ts:106-107 | dropping leading zeros keeps the number, leaves a canonical string, and leaves "0" exactly for an all-zero coefficient |
| OrderedMaps.SetGet | src/core/Balance.ts:44 | `map.set` changes what the key set reads and nothing else |
| OrderedMaps.SetKeys | src/core/Balance.ts:44 | after `map.set` every key is held once, and the keys are the old ones plus the key set |
| OrderedMaps.SetKeepsKeys | src/core/Account.ts:38 | setting a key already held keeps the key order |
| Numerals.Lower | src/core/Amount.ts:121 | lower-casing keeps the length and maps each character on its own |
| Numerals.ScanSound | src/core/Amount.ts:2 | whatever the recogniser accepts is a well-formed numeral of the grammar that renders back to the input |
| Numerals.ScanComplete | src/core/Amount.ts:2 | every well-formed numeral is accepted, and scanning its rendering gives back that numeral |
| Numerals.ScanDecides | src/core/Amount.ts:2 | the recogniser accepts exactly the language of the grammar |
| Numerals.LowerRender | src/core/Amount.ts:121 | lower-casing leaves every rendering of the grammar unchanged |
| Amounts.Construct | src/core/Amount.ts:95-111 | fails exactly on a coefficient that is not a non-empty digit string; otherwise keeps the exponent and the number, and empties the sign of zero |
| Amounts.ConstructNormalised | src/core/Amount.ts:106-107 | on a normalised triple the constructor changes nothing |
| Amounts.NoSignMagnitude | src/core/Amount.ts:106 | an amount has the empty sign exactly when its coefficient is zero |
| Amounts.FromNumeral | src/core/Amount.ts:125-132 | a matched numeral always builds an amount |
| Amounts.FromString | src/core/Amount.ts:120-133 | every refusal is a RangeError |
| Amounts.FromStringAccepts | src/core/Amount.ts:120-124 | `fromString` accepts a string exactly when its lower-cased form matches the grammar, and refuses every other string with RangeError |
| Amounts.ParseNumeral | src/core/Amount.ts:125-131 | parsing gives the written exponent minus the digits after the point, the digits with the point removed, and '-' exactly for a written '-' on a non-zero coefficient |
| Amounts.NumeralValue | src/core/Amount.ts:125-131 | the same three facts about the amount a matched numeral builds |
| Amounts.Reparse | src/core/Amount.ts:24-26 | the amount that `${k}e${m}` stands for has signed coefficient k and exponent m |
| Amounts.ParseScaled | src/core/Amount.ts:26 | re-parsing `${k}e${m}` gives an amount whose signed coefficient is k and whose exponent is m |
| Amounts.ReparseParses | src/core/Amount.ts:26 | re-parsing `${k}e${m}` gives the normalised amount of value k·10^m at exponent m |
| Amounts.ToAmount | src/core/Amount.ts:113-118 | an Amount comes back unchanged; a bigint n becomes n at exponent 0; `undefined` is refused at once, with the TypeError that `quantize`'s read of `.divide` raises in the source |
| Amounts.Plus | src/core/Amount.ts:21-27 | the exact sum, at the smaller of the two exponents |
| Amounts.Minus | src/core/Amount.ts:29-35 | the exact difference, at the smaller of the two exponents |
| Amounts.Multiply | src/core/Amount.ts:37-42 | coefficients multiply and exponents add |
| Amounts.TruncDivision | src/core/Amount.ts:44-57 | BigInt `/` and `%`: the remainder is smaller than the divisor and has the dividend's sign, and the quotient is truncated toward zero |
| Amounts.Divide | src/core/Amount.ts:44-49 | fails exactly on a zero divisor, with RangeError; otherwise the coefficient quotient truncated toward zero, at the difference of the exponents |
| Amounts.Modulo | src/core/Amount.ts:51-57 | fails exactly on a zero divisor; otherwise the truncated remainder of the coefficients rescaled to the smaller exponent, at that exponent |
| Amounts.Abs | src/core/Amount.ts:59-61 | the absolute value, with coefficient and exponent kept |
| Amounts.IsZero | src/core/Amount.ts:63-65 | true exactly when the amount is zero |
| Amounts.Precision | src/core/Amount.ts:12-14 | the number of digits: the coefficient is below 10^p, and at least 10^(p-1) when p > 1 |
| Amounts.Equals | src/core/Amount.ts:16-19 | fails exactly when `toAmount` refuses the argument; otherwise true exactly for the same sign, coefficient and exponent |
| Amounts.EqualsIsStructural | src/core/Amount.ts:16-19 | 1 and 1.0 are the same number but `equals` says false |
| Amounts.ZeroAmount | src/core/Amount.ts:106-108 | normalisation leaves a single amount that is zero at exponent 0 |
| Amounts.MinusUndoesPlus | src/core/Amount.ts:21-35 | adding then subtracting b gives back a's number |
| Amounts.PlusCommutes | src/core/Amount.ts:21-27 | `plus` is commutative, exponent included |
| Amounts.SameDenotation | src/core/Amount.ts:106-108 | a normalised amount is determined by its signed coefficient and exponent |
| Amounts.DivideModulo | src/core/Amount.ts:44-57 | with equal exponents, dividend = quotient·divisor + remainder |
| AmountText.SciRender | src/core/Amount.ts:146-151 | scientific notation is the rendering of a well-formed numeral of the grammar |
| AmountText.ScientificRoundTrip | src/core/Amount.ts:146-151 | parsing the scientific string gives back the very same amount |
| AmountText.ToText | src/core/Amount.ts:71-73 | scientific text parses back to the amount; the corrected normal text parses back to the same number |
| AmountText.ToBigInt | src/core/Amount.ts:79-81 | with the point corrected: succeeds exactly on a whole amount, and then returns its exact value; otherwise SyntaxError |
| AmountText.IsInteger | src/core/Amount.ts:67-69 | with the point corrected: true exactly when the amount is whole |
| AmountText.NormalRender | src/core/Amount.ts:135-144 | corrected normal notation is the rendering of a numeral of the grammar |
| AmountText.NormalRoundTrip | src/core/Amount.ts:135-144 | corrected normal notation parses back to the same number, and to the very same amount when the exponent is not positive |
| AmountText.NormalBigInt | src/core/Amount.ts:79-81 | BigInt of the corrected normal string with `.0+` removed succeeds exactly for a whole amount, giving its value |
| AmountText.NormalIntegerText | src/core/Amount.ts:67-69 | the integer pattern matches the corrected normal string exactly for a whole amount |
| AmountText.StripPointZerosDrops | src/core/Amount.ts:80 | `.replace(/\.0+$/, '')` drops a point followed only by zeros |
| AmountText.StripPointZerosKeeps | src/core/Amount.ts:80 | it keeps a fraction that has a non-zero digit |
| AmountText.BigIntOfPoint | src/core/Amount.ts:80 | BigInt refuses a string that still holds a point |
| AmountText.NormalStringAsWrittenMisplacesPoint | src/core/Amount.ts:139-141 | as written, 12.3 prints as "+1.23"; corrected, as "+12.3" |
| AmountText.IsIntegerAsWrittenAcceptsFraction | src/core/Amount.ts:67-69 | as written, 1.20 passes the integer test; it is not whole |
| AmountText.ToBigIntAsWrittenShrinks | src/core/Amount.ts:79-81 | as written, 100.0 converts to 1; corrected, to 100 |
| AmountExamples.AcceptsSignedPoint | src/core/Amount.test.ts:53 | "-9.10" is ('-', "910", -2) |
| AmountExamples.AcceptsSignedZero | src/core/Amount.test.ts:54 | "+0.0" is ('', "0", -1) |
| AmountExamples.AcceptsUpperCaseExponent | src/core/Amount.test.ts:61 | "+17E18" is ('+', "17", 18) |
| AmountExamples.AcceptsPointAndNegativeExponent | src/core/Amount.test.ts:63 | "22.23e-24" is ('+', "2223", -26) |
| AmountExamples.AcceptsZeroWithScale | src/core/Amount.test.ts:66 | "0.0000e-26" is ('', "0", -30) |
| AmountExamples.ZeroLiteral | src/core/Amount.ts:115 | the number 0, printed by `toExponential` as "0e+0", reads as ('', "0", 0) |
| AmountExamples.RejectedWhenUnscanned | src/core/Amount.ts:121-124 | a string whose lower-cased form the recogniser refuses is refused |
| AmountExamples.RejectsEmpty | src/core/Amount.test.ts:15 | "+", "-" and "" are refused |
| AmountExamples.RejectsDelimiter | src/core/Amount.test.ts:16 | "1,000" is refused |
| AmountExamples.RefusedAfterDigits | src/core/Amount.test.ts:17 | digits followed by a character that is not a digit, '.', 'e' or 'E' are refused |
| AmountExamples.RejectsMissingExponent | src/core/Amount.test.ts:17 | "1e" is refused |
| AmountExamples.RejectsPercent | src/core/Amount.test.ts:23 | "100%" is refused |
| AmountExamples.RejectsSeveralPoints | src/core/Amount.test.ts:24 | "1.0.1" is refused |
| AmountExamples.RejectsInnerSign | src/core/Amount.test.ts:27 | "0+0" is refused |
| AmountExamples.RejectsHex | src/core/Amount.test.ts:28 | "0x00" is refused |
| Commodities.Count | src/core/Amount.ts:116 | a bigint count reads as that integer at exponent 0 |
| Commodities.ImportFromShape | src/core/Commodity.ts:48-51 | the loop puts the rules before the first bad candidate in front, last first, and fails exactly on a bad candidate, with its error |
| Commodities.ImportedRules | src/core/Commodity.ts:45-52 | after an import the list holds, last entry first, the rules of the entries before the first bad one, and nothing else; it succeeds exactly when no candidate is bad |
| Commodities.LaterRuleTriedFirst | src/core/Commodity.ts:50 | importing [USD → cents, * → whole] puts `*` first, so it decides the grain of USD |
| Commodities.FirstMatch | src/core/Commodity.ts:54-61 | succeeds exactly when some rule matches, with the grain of the first match; otherwise RangeError |
| Commodities.FirstMatchAt | src/core/Commodity.ts:55-59 | the position found matches, and no earlier rule does |
| Commodities.Made | src/core/Commodity.ts:29-30 | succeeds exactly when `toAmount` accepts the grain, and then carries the name and that grain; a refusal is `toAmount`'s error |
| Commodities.LookupTwice | src/core/Commodity.ts:41-43 | a second lookup of the same name gives the same commodity and leaves the cache alone |
| Commodities.Registry.constructor | src/core/Commodity.ts:10-11 | the registry starts with no rules and no commodities |
| Commodities.Registry.ImportUnits | src/core/Commodity.ts:45-52 | the rule list becomes what `Imported` describes, and the cache is emptied |
| Commodities.Registry.GetUnitFromName | src/core/Commodity.ts:54-61 | the loop returns the grain of the first matching rule, or RangeError |
| Commodities.Registry.NewCommodity | src/core/Commodity.ts:26-34 | a name already cached is a RangeError; otherwise the new commodity is cached under its name |
| Commodities.Registry.FromName | src/core/Commodity.ts:41-43 | the cached commodity, or a new one with the grain of the first matching rule, cached under its name |
| Commodities.Registry.ToCommodity | src/core/Commodity.ts:36-39 | a commodity comes back as it is and the cache is untouched; a name resolves to the commodity cached under it |
| Commodities.Registry.ResolveTwice | src/core/Commodity.ts:36-43 | resolving a name twice with no import in between gives the same commodity |
| Commodities.Grains | src/core/Commodity.ts:13-16 | a zero grain is a division by zero; otherwise succeeds exactly when the amount is a whole number of grains, and that many grains make the amount |
| Commodities.GrainsCount | src/core/Commodity.ts:13-16 | the count is k exactly when the grain is not zero and k grains make the amount |
| Commodities.NotWholeGrains | src/core/Commodity.ts:13-16 | when the rescaled grain leaves a remainder, no count of grains makes the amount |
| Commodities.QuantizeMultiple | src/core/Commodity.ts:13-16 | quantizing n grains gives back n, for a grain that is not zero |
| Commodities.QuantizeScaled | src/core/Commodity.ts:13-16 | k grains, stated on the coefficients rescaled to the smaller exponent, quantize to k |
| Commodities.DivideAsWritten | src/core/Commodity.ts:13-16 | as written, when the quotient's exponent is not negative, quantize returns the truncated coefficient quotient times a power of ten |
| Commodities.WholeExponentAsWritten | src/core/Amount.ts:79-81 | at an exponent that is not negative, `toBigInt` as written is the amount's value |
| Commodities.QuantizeAsWrittenDependsOnNotation | src/core/Commodity.ts:13-16 | with grain 0.05, 0.1 counts as 0 grains as written but 0.10 counts as 2; corrected, both are 2 |
| Commodities.QuantizeAsWrittenTruncates | src/core/Commodity.ts:13-16 | as written, 7 in grain 5 quantizes to 1; corrected, it is refused as not a whole number of grains |
| Commodities.QuantizeAsWrittenRefusesHalf | src/core/Commodity.ts:13-16 | as written, 0.5 in grain 1 is refused, since `toBigInt` reads "+0.5"; corrected, it is refused too |
| Values.AmountOf | src/core/Value.ts:15-17 | the amount is grain × quantity, at the grain's exponent |
| Values.FromAmount | src/core/Value.ts:27-31 | succeeds exactly when the amount reads, the grain is not zero and the amount is a whole number of grains; the value then denotes that amount |
| Values.SplitValue | src/core/Value.ts:39-44 | fails with RangeError exactly when there is no space; the parts hold no space |
| Values.SplitJoined | src/core/Value.ts:40 | two space-free parts joined by a space come apart again, and text after a second space is dropped |
| Values.ScientificHasNoSpace | src/core/Value.ts:19-21 | the printed amount never contains a space |
| Values.TextRoundTrip | src/core/Value.ts:19-21 | printing a value and reading it back gives the same value, when the name has no space and resolves to the value's commodity |
| Values.ScientificConstructs | src/core/Value.ts:27-31 | the printed amount, with the commodity's name, constructs the value again |
| Values.FromTextCounts | src/core/Value.ts:39-44 | a value string reads as the amount before the space, counted in the commodity the name after it resolves to |
| Values.QuantityObjectAsWritten | src/core/Balance.ts:10 | as written, `toValue({quantity, commodity})` fails with TypeError; the intended reading is that quantity of that commodity |
| Values.NewValue | src/core/Value.ts:27-31 | resolves the commodity through the registry, then counts the grains |
| Values.ToValue | src/core/Value.ts:33-37 | a value comes back as it is; other arguments go through the constructor, strings are split first |
| Balances.TallySums | src/core/Balance.ts:40-47 | `fromValues` stores, for each commodity, the sum of the quantities in it |
| Balances.TallyKeys | src/core/Balance.ts:40-47 | it holds each commodity once, and exactly the commodities of the values |
| Balances.TallyOrder | src/core/Balance.ts:44 | `map.set` keeps the commodities in the order of their first value |
| Balances.StoredTally | src/core/Balance.ts:15-17 | the held pairs list each commodity of the values once, in first-seen order, with the sum of its quantities |
| Balances.TallyEmpty | src/core/Balance.ts:29-32 | a balance made from values is empty exactly when every commodity sums to zero |
| Balances.FromValues | src/core/Balance.ts:40-47 | the arguments become values in turn, each resolving its commodity through the cache the ones before left; the first failure is the result; otherwise the balance is the tally of those values, and the registry keeps the cache they leave |
| Balances.ValuesIn | src/core/Balance.ts:42-45 | on success, one value per argument |
| Balances.ValuesInEach | src/core/Balance.ts:43 | each value is `toValue` of its argument, with the cache that the arguments before it left |
| Balances.ValuesInStops | src/core/Balance.ts:42-45 | once an argument fails, the arguments after it change neither the result nor the cache |
| Balances.ValuesInFails | src/core/Balance.ts:42-45 | the conversion fails exactly when some argument fails after all the ones before it succeeded |
| Balances.Get | src/core/Balance.ts:7-11 | the stored quantity of the commodity, or 0 when none is stored; a name resolved anew is cached, as `fromName` does |
| Balances.IsEmpty | src/core/Balance.ts:29-32 | true exactly when every stored quantity is 0 |
| Balances.Dedup | src/core/Balance.ts:14 | `new Set`: the same commodities, each once |
| Balances.Without | src/core/Balance.ts:18 | `delete`: every commodity but the one deleted |
| Balances.Remaining | src/core/Balance.ts:14-19 | the requested commodities that are not held |
| Balances.ZeroValueOf | src/core/Balance.ts:21 | `{commodity, amount: 0}` is zero grains, or a division by zero for a zero grain |
| Balances.ZeroValues | src/core/Balance.ts:20-22 | a zero of each commodity, or a division-by-zero error when some grain is zero |
| Balances.Listed | src/core/Balance.ts:13-23 | the held values in order, then a zero for each requested commodity that is not held |
| Balances.ListedDistinct | src/core/Balance.ts:13-23 | no commodity is listed twice |
| Balances.ListedMissing | src/core/Balance.ts:13-23 | a commodity is listed after the held ones exactly when it is requested and not held |
| Balances.ResolveAll | src/core/Balance.ts:14 | resolves the requested commodities in turn as `ResolvedIn` does, returning its result and leaving its cache in the registry |
| Balances.ResolvedIn | src/core/Balance.ts:14 | on success, one commodity per requested one |
| Balances.ResolvedInEach | src/core/Commodity.ts:36-43 | an instance resolves to itself; a name resolves to what `fromName` gives with the cache the earlier requests left |
| Balances.ResolvedInStops | src/core/Balance.ts:14 | once a request fails, the requests after it change nothing |
| Balances.ResolvedInFails | src/core/Balance.ts:14 | resolution fails exactly when some request fails after all the ones before it succeeded |
| Balances.ResolvedInCaches | src/core/Commodity.ts:41-43 | every name resolved is cached afterwards, under that name, with the commodity it resolved to |
| Balances.ListHeld | src/core/Balance.ts:15-19 | the first loop lists the held values and leaves the requested commodities that are not held |
| Balances.ZeroValue | src/core/Balance.ts:21 | a zero value of the commodity, or a division by zero |
| Balances.ListZeros | src/core/Balance.ts:20-22 | the second loop yields a zero of each pending commodity |
| Balances.ListValues | src/core/Balance.ts:13-23 | a failed resolution is the result; otherwise `Listed` over the resolved commodities with duplicates removed, and the registry keeps the resolution's cache |
| Entries.EntryIn | src/core/Entry.ts:45-56 | the entry belongs to its transaction, keeps the URI as given, and holds a value that denotes the amount given |
| Entries.FromObject | src/core/Entry.ts:45-56 | builds the entry `EntryIn` describes, resolving the commodity through the registry |
| Entries.ToJson | src/core/Entry.ts:37-43 | the URI as stored, an amount that parses back to the entry's own, and the commodity's name |
| Entries.JsonRoundTrip | src/core/Entry.ts:37-56 | reading the JSON form back as a flat entry gives the same entry |
| Accounts.Kept | src/core/Account.ts:21-31 | compaction never lengthens the list |
| Accounts.KeptMembers | src/core/Account.ts:21-31 | the kept entries are exactly those that post to the account |
| Accounts.KeptAppend | src/core/Account.ts:21-31 | compaction distributes over concatenation, so the original order is kept |
| Accounts.KeptTwice | src/core/Account.ts:21-31 | reading `entries` twice removes nothing more |
| Accounts.KeptAll | src/core/Account.ts:21-31 | entries that all post to the account are all kept |
| Accounts.PostingsGrained | src/core/Value.ts:15-17 | the amount of every entry is written at its grain's exponent |
| Accounts.TotalsKeys | src/core/Account.ts:33-42 | `balance` holds each commodity posted once, and nothing else |
| Accounts.TotalsSum | src/core/Account.ts:33-42 | each total is the exact sum of the amounts posted in its commodity, at a fixed exponent |
| Accounts.TotalsZero | src/core/Account.ts:54-57 | the totals are all zero exactly when every commodity sums to zero |
| Accounts.EmptyAsWrittenNeedsWholeGrains | src/core/Account.ts:54-57 | as written, an account with a posting in a grain finer than 1 is never empty |
| Accounts.ZeroTotalNotEmptyAsWritten | src/core/Account.ts:54-57 | a posting taken back out in a 0.01 grain balances to zero, yet the test as written says not empty |
| Accounts.EmptyIffBalanced | src/core/Account.ts:54-57 | corrected, an account is empty exactly when each commodity's amounts sum to zero |
| Accounts.EveryZero | src/core/Account.ts:55 | the loop says true exactly when every total is zero |
| Accounts.Account.constructor | src/core/Account.ts:59-68 | a new account is inactive and has no entries |
| Accounts.Account.Entries | src/core/Account.ts:21-31 | the in-place loop leaves exactly the kept entries, in order, and changes nothing else |
| Accounts.Account.Balance | src/core/Account.ts:33-42 | compacts the entries, then returns the totals of their postings |
| Accounts.Account.IsEmpty | src/core/Account.ts:54-57 | corrected: compacts the entries, then says whether each commodity sums to zero |
| Accounts.Account.Open | src/core/Account.ts:44-47 | an empty account becomes active whatever its flag was; otherwise an error and the flag is kept |
| Accounts.Account.Close | src/core/Account.ts:49-52 | an empty account becomes inactive; otherwise an error and the flag is kept |
| Accounts.Account.Push | src/core/commit/Transaction.ts:48 | the compacted entries, then the new entry last |
| Accounts.LastSegment | src/core/Account.ts:96 | what follows the last '/', or the whole path |
| Accounts.LastSegmentUnique | src/core/Account.ts:96 | a path has only one last segment |
| Accounts.SegmentHasNoSlash | src/core/Account.ts:96 | the characters of the last segment at the end of the path are never '/' |
| Accounts.NameFromUri | src/core/Account.ts:93-97 | no path is a SyntaxError; otherwise the path's last segment (the suffix after its last '/', which holds no '/'), decoded, or a URIError for a malformed escape |
| Accounts.Compacted | src/core/Account.ts:21-31 | compaction keeps the flag, and keeps exactly the entries of the account |
| Accounts.Shown | src/core/Account.ts:85-90 | the iterator yields only registered accounts |
| Accounts.AccountRegistry.constructor | src/core/Account.ts:19 | the registry starts empty |
| Accounts.AccountRegistry.NewAccount | src/core/Account.ts:59-68 | a normalised URI already registered is a RangeError; otherwise a new, inactive, empty account is registered last |
| Accounts.AccountRegistry.FromUri | src/core/Account.ts:78-83 | the registered account whatever the name asked; otherwise a new one named as asked, or after its URI |
| Accounts.AccountRegistry.Listed | src/core/Account.ts:85-90 | in registration order, the accounts that are active or not empty; only an inactive account is asked, which compacts it, and nothing else changes |
| Accounts.Account.Shows | src/core/Account.ts:87 | an active account shows and is left alone; an inactive one is compacted and shows exactly when not empty |
| Accounts.AccountRegistry.ToAccount | src/core/Account.ts:70-76 | an account comes back as it is; otherwise `fromURI`: a registered URI gives its account; an unregistered one, unnamed and without a name in its path, is that error; otherwise a new inactive, empty account, named as asked or after its URI, is registered last, or RangeError if its URI normalised again is taken |
| States.Filed | src/core/State.ts:10-17 | every account given is filed, and each under its own URI |
| States.FiledFrom | src/core/State.ts:10-17 | every URI filed is that of an account given |
| States.FiledDistinct | src/core/State.ts:10-17 | with distinct URIs, each account is filed under its own URI |
| States.State.New | src/core/State.ts:10-19 | a repeated URI is a RangeError; otherwise each account is filed under its URI, and the state is frozen unless mutable |
| States.State.Save | src/core/State.ts:25-28 | freezes the state and returns it, accounts unchanged |
| States.State.GetCopy | src/core/State.ts:30-32 | a new mutable state that shares the very account objects of the original |
| States.State.Get | src/core/commit/Open.ts:22 | the account under the URI, or a new inactive, empty one filed under it |
| Commits.Built | src/core/commit/Transaction.ts:53-62 | on success, one entry per input, owned by the transaction, with the URI as given |
| Commits.BuiltStops | src/core/commit/Transaction.ts:55-57 | once an input fails, later inputs are not looked at |
| Commits.NewTransaction | src/core/commit/Transaction.ts:53-62 | the loop builds `Built`'s entries, so the set has as many entries as there were inputs |
| Commits.Activate | src/core/commit/Open.ts:20-25 | refused, with its kind's error, exactly when the compacted account is not empty; otherwise only that account's flag changes |
| Commits.ActivateAs | src/core/commit/Close.ts:20-25 | the compacted record, flagged open or closed, or the refusal |
| Commits.Step | src/core/commit/Commit.ts:17 | a transaction always applies: nothing checks that it sums to zero |
| Commits.PostedRecords | src/core/commit/Transaction.ts:44-51 | each account gets exactly the entries that name it, in order; accounts no entry names keep their records |
| Commits.PostedKeys | src/core/commit/Transaction.ts:44-51 | a transaction adds exactly the URIs its entries name |
| Commits.PostedOwned | src/core/commit/Transaction.ts:44-51 | posting keeps every entry under the account it posts to |
| Commits.ReplayOwned | src/core/commit/Commit.ts:12-15 | replayed states hold each entry under its own account, so compaction never drops one |
| Commits.ActivationOnlyFlips | src/core/commit/Open.ts:20-25 | in a replayed state, opening or closing changes that account's flag and nothing else |
| Commits.PathFrom | src/core/commit/Commit.ts:26-30 | root first and the commit last, each the parent of the next, no commit twice; empty for no commit |
| Commits.PathPrefix | src/core/commit/Commit.ts:28 | the path to a commit is the path to its parent, then the commit |
| Commits.GetCommitPath | src/core/commit/Commit.ts:26-30 | the loop returns exactly `PathFrom` |
| Commits.ReplayAlongPath | src/core/commit/Commit.ts:12-15 | a commit's state is `apply` folded along its path, root first, from an empty state |
| Commits.DatesIrrelevant | src/core/commit/Commit.ts:12-15 | arenas that differ only in dates give every commit the same state |
| Commits.StateAtPrefix | src/core/commit/Commit.ts:12-15 | committing more never changes the state of a commit already made |
| Commits.StateAtLast | src/core/commit/Commit.ts:12-17 | the state of the commit added last is its action applied to its parent's state, or to an empty one at the root |
| Commits.NewActivationReplays | src/core/commit/Open.ts:27-30 | a new `Open` or `Close` fits the ledger, and its state is its account, by normalised URI, opened or closed in the parent's state |
| Commits.TransactionAppends | src/core/commit/Transaction.ts:44-51 | a replayed transaction appends its entries to the accounts they name, in order, and leaves the rest alone |
| Commits.ActivateIn | src/core/commit/Open.ts:22-23 | on state objects, `get` then `open`/`close` behaves as `Activate` and files only that account |
| Commits.Fetch | src/core/commit/Transaction.ts:47 | `get` on a state object yields an account that reads as the snapshot says |
| Commits.HeldWith | src/core/commit/Transaction.ts:47-48 | replacing one account's record in the snapshot matches the state once that account changed |
| Commits.ApplyActivate | src/core/commit/Close.ts:20-25 | `apply` of Open/Close on state objects gives `Activate`'s snapshot in a new mutable state; the parent's accounts are shared and read as that snapshot, or, on refusal, hold the compacted account |
| Commits.PushOnto | src/core/commit/Transaction.ts:46-48 | `get` then `push` on state objects gives `Pushed`'s snapshot |
| Commits.ApplyTransaction | src/core/commit/Transaction.ts:44-51 | the loop over the entry set gives `Posted`'s snapshot in a new mutable state; the parent's accounts are shared and read as that snapshot |
| Commits.SharedHolds | src/core/State.ts:30-32 | accounts the shallow copy shares with its parent read, in the parent, as they read in the copy |
| Commits.Apply | src/core/commit/Commit.ts:17 | `apply` on state objects agrees with `Step`; the parent's shared accounts read as the new snapshot, or, for a refused Open/Close, hold the compacted account |
| Commits.GetRawState | src/core/commit/Commit.ts:12-15 | the recursive replay on state objects agrees with `StateAt` |
| Commits.GetState | src/core/commit/Commit.ts:8-10 | the replayed state, saved, so frozen |
| Commits.AccountOf | src/core/commit/Open.ts:9-11 | the account in the commit's own state is active exactly for an Open |
| Commits.CommitToJson | src/core/commit/Transaction.ts:37-42 | the kind of commit, then its URI or its entries in order, each with an amount that parses back to its own |
| Commits.TransactionNeverReplays | src/core/Entry.ts:26-28 | as written, a transaction with an entry never yields a state, however deep evaluation goes |

## Left out

- Floating-point numbers: `toAmount` of a `number`, `toNumber`, `valueOf` and `Symbol.toPrimitive` are not modelled. The one number the core passes itself, the literal 0, is modelled as "0e+0".
- The sign check of the `Amount` constructor: the `Sign` datatype makes a bad sign impossible.
- `Amounts.FromStringAccepts`: the exponent is an unbounded integer here but a JavaScript number in the source. An exponent of 309 or more digits becomes Infinity and fails the integer check (src/core/Amount.ts:102) with RangeError. One above 2^53 loses precision. Scientific notation (src/core/Amount.ts:150) prints an exponent of 1e21 or more as "1e+21", which does not parse back.
- `Amounts.ToAmount`: refuses `undefined` at once. The source returns it unchanged. The `Commodity` constructor (src/core/Commodity.ts:30) and `importUnits` (src/core/Commodity.ts:50) store it, and only `quantize` reads it and throws. `undefined` is outside the declared `AmountLike` type and reaches `toAmount` only through the `Balance.get`/`values` defect (see Findings).
- The arithmetic members (`Plus`, `Minus`, `Multiply`, `Divide`, `Modulo`) take an `Amount`, not an `AmountLike`: the coercion of the argument is modelled once, in `ToAmount`, and `Equals` shows it applied.
- Pattern compilation and matching (picomatch, `RegExp`) are a function parameter of the commodity registry.
- URI normalisation, parsing and `decodeURIComponent` (uri-js) are function parameters (`UriLib`).
- luxon dates are carried as opaque values and never read.
- `console.warn` in `fromURI` is output only and is not modelled.
- `Object.freeze` and `Object.seal` become a `frozen` flag on `State`; frozen records are datatypes.
- The iterators `Commodity[Symbol.iterator]`, `Balance[Symbol.iterator]` and the `Transaction` set accessors (`size`, `has`, `keys`, `values`, `entries`, `forEach`) delegate to a collection. The model gives that collection as a sequence, so iteration order is sequence order.
- Entry identity: `Set<Entry>` compares objects, and every input makes a new entry, so the set is a sequence with one element per input.
- `Commits.StateAt`: the replay finds an entry's account by its URI. As written, `entry.account` reads `entry.transaction.state`, which never returns (see Findings).
- `State.getMutable`, `State.getImmutable`, `state.get` and `Account.getURI` are not defined in the files modelled. The model uses `getCopy`, `save`, lookup-or-insert and normalisation in their place.
- Commodity identity is structural: two commodities are the same when name and grain are equal.
- Commits sit in an arena indexed by position, rather than holding object references to their parents.
- `Amounts.MinusUndoesPlus`: states numeric equality only, because `equals` fails when b has the smaller exponent.
- `Accounts.Shown`: states only that the iterator yields registered accounts; `AccountRegistry.Listed` states the full order and filter.
- `Commits.RawStateAsWritten`: the infinite recursion is bounded by a `fuel` parameter, and running out of fuel is `None`.

## Findings

| source | as written | input that shows it | evidently intended | confidence | as-written member | corrected member |
|---|---|---|---|---|---|---|
| src/core/Amount.ts:139-141 | `slice(0, -(precision + exponent))` keeps the first `-exponent` digits before the point | 12.3 (coefficient 123, exponent -1) prints "+1.23" | `precision + exponent` digits before the point: "+12.3" | high, not executed | AmountText.NormalStringAsWrittenMisplacesPoint | AmountText.NormalRoundTrip |
| src/core/Amount.ts:67-69 | `isInteger` tests the misplaced normal string | 1.20 (coefficient 120, exponent -2) prints "+12.0" and passes | true only for whole amounts | high, not executed | AmountText.IsIntegerAsWrittenAcceptsFraction | AmountText.IsInteger |
| src/core/Amount.ts:79-81 | `toBigInt` reads the misplaced normal string | 100.0 (coefficient 1000, exponent -1) converts to 1 | the amount's integer value, 100 | high, not executed | AmountText.ToBigIntAsWrittenShrinks | AmountText.ToBigInt |
| src/core/Commodity.ts:13-16 | `divide` truncates the quotient of the coefficients without lining up the exponents | grain 0.05: 0.1 counts as 0 grains, 0.10 as 2 | the number of grains in the amount, 2 for both | high, not executed | Commodities.QuantizeAsWrittenDependsOnNotation | Commodities.QuantizeMultiple |
| src/core/Commodity.ts:13-16 | a non-multiple of the grain is truncated when the exponents line up, but refused by `toBigInt` when the quotient keeps a fraction | grain 5: 7 counts as 1 grain, while 0.5 in grain 1 throws | one rule for every amount that is not a whole number of grains; the model refuses them all | medium, not executed | Commodities.QuantizeAsWrittenTruncates | Commodities.GrainsCount |
| src/core/Account.ts:54-57 | each total must be structurally equal to 0e+0 | +0.01 then -0.01 in a 0.01 grain leaves the total 0 at exponent -2, and the account is not empty | empty when every total is zero | high, not executed | Accounts.ZeroTotalNotEmptyAsWritten | Accounts.EmptyIffBalanced |
| src/core/Balance.ts:10 | `toValue({quantity, commodity})` has no `amount`, so `quantize(undefined)` throws | `get` of any commodity | the value of that quantity in that commodity | high, not executed | Values.QuantityObjectAsWritten | Balances.Get |
| src/core/Balance.ts:17 | `values()` yields `toValue({commodity, quantity})`, which throws in the same way | `values()` of a balance holding any commodity | the value of each held quantity | high, not executed | Values.QuantityObjectAsWritten | Balances.Listed |
| src/core/Entry.ts:26-28 | `entry.account` reads `transaction.state`, which replays the transaction, whose `apply` reads `entry.account` again | any transaction with one entry | the account under `accountUri` in the state being built | high, not executed | Commits.TransactionNeverReplays | Commits.TransactionAppends |
