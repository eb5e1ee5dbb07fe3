# Tariffic core, modelled in Dafny

Tariffic is a tariff-impact web application. This project models its
deterministic core as pure Dafny functions and proves properties about them.

- **The tariff calculator** (`scripts/tariff-calculator/calculator.ts`), module `Tariff`:
  - it looks up the rule for a trade lane;
  - it chooses a product-specific rate by a literal HS-code prefix;
  - it charges duty on the CIF value (product + freight + insurance);
  - it builds the four-line breakdown, its total and the effective rate;
  - it computes the economic-impact score.
- **The `localStorage` cache** (`src/lib/persistentCache.ts`), module `PersistentCache`:
  - lookups with hit and miss counters, and lazy deletion of expired or wrong-version entries;
  - writes that evict the oldest fifth of the parseable entries when the quota is hit;
  - `has`, `delete`, `clear` and the hit and miss rates.
- **The in-memory TTL cache** (`src/lib/cache.ts`), module `TtlCache`.
- **`formatDuration`** of `scripts/cache-cli.ts`, module `Duration`, together with a parser that reads its output back.
- **The URL slug rule** `toLowerCase().replace(/[^a-z0-9]+/g, '-')` and the company and subcategory links built from it (`src/components/SubcategorySection.tsx`), module `Slug`.
- **The three search boxes**, modules `CategorySearch`, `CompanyProductSearch` and `UnifiedSearch`:
  - the category filter;
  - the company/product suggestion list;
  - the tabbed unified suggestion list.

  They share the `Catalog` records.

Shared helpers live in two modules:

- `Seqs`: `Option`, `Array.prototype.find`/`filter`/`slice`, and subsequences.
- `Text`: ASCII `toLowerCase`, `includes`, `startsWith`, and decimal rendering.

Several things the source gets from its environment are parameters here:

- the clock (`Date.now()`) is a parameter `now`;
- the rate table and the employment-factor table are parameters, with the shipped tables as constants;
- the storage quota is a key-count `capacity`;
- the order of `Object.keys(localStorage)` is a parameter `order`.

Money and rates are `real`. Milliseconds are `int`.

In the rate rule, an override such as `"84-85"` tests only its literal prefix `"84"`. So chapter 85 from China takes the 0.10 base rate (`Tariff.ChinaChapter85TakesBaseRate`). The model keeps this behaviour because it is what the code does.

## Model

| member | source | states |
|---|---|---|
| `Tariff.BeforeDash` | scripts/tariff-calculator/calculator.ts:62 | `split('-')[0]` is a prefix of the code with no `-` in it, and it stops exactly at the first `-` when there is one |
| `Tariff.FindLane` | scripts/tariff-calculator/calculator.ts:51-54 | no rule is found exactly when no rule has the lane's origin and destination; otherwise the first such rule is returned |
| `Tariff.ResolveRate` | scripts/tariff-calculator/calculator.ts:60-65 | the first override whose code-before-`-` prefixes the HS code gives the rate; when none applies, the lane's base rate does |
| `Tariff.GetTariffRate` | scripts/tariff-calculator/calculator.ts:50-65 | fails, naming the lane, exactly when the lane has no rule; otherwise it is the resolved rate of the lane's first rule |
| `Tariff.CalculateTariffAmount` | scripts/tariff-calculator/calculator.ts:124-127 | fails exactly when the rate lookup fails; otherwise the duty (`Tariff.Duty`) is (product + freight + insurance) times the resolved rate |
| `Tariff.CalculateVat` | scripts/tariff-calculator/calculator.ts:100-103 | there is never a VAT amount |
| `Tariff.GenerateBreakdown` | scripts/tariff-calculator/calculator.ts:105-121 | the lines are Product Value, Freight Costs, Insurance Costs and Tariff Amount, carrying the inputs; a fifth VAT line is added exactly when a non-zero VAT amount is given |
| `Tariff.BreakdownSum` | scripts/tariff-calculator/calculator.ts:135 | the left fold `Tariff.SumAmounts` of the breakdown sums to product + freight + insurance + duty, plus the VAT when it has a line |
| `Tariff.Round` | scripts/tariff-calculator/calculator.ts:75 | `Math.round` gives the integer n with n - 0.5 <= x < n + 0.5, so halves round up |
| `Tariff.AnnualVolume` | scripts/tariff-calculator/calculator.ts:69 | the given volume unless it is absent or zero, else twelve times the product value; never zero for a non-zero product value |
| `Tariff.EmploymentFactor` | scripts/tariff-calculator/calculator.ts:70-71 | the given factor unless absent or zero, else the origin's non-zero table entry, else 5.0; never zero |
| `Tariff.JobsAffected` | scripts/tariff-calculator/calculator.ts:74-75 | the jobs are 15% of the volume, in millions, times the factor, rounded to the nearest integer |
| `Tariff.Components` | scripts/tariff-calculator/calculator.ts:82-84 | the tariff component is the duty as a percentage of the product value, or 40 when that is higher; the market-share component is exactly 15; the employment component is the jobs lost as a percentage of the jobs the volume supports, or 30 when that is higher |
| `Tariff.Score` | scripts/tariff-calculator/calculator.ts:86-90 | the score lies in [0, 100]; it is 100 minus the components when that difference is in range, 100 when the difference is above 100, and 0 when it is below 0 |
| `Tariff.ScoreNeverClampedToZero` | scripts/tariff-calculator/calculator.ts:82-90 | the capped components sum to at most 85, so the score is at least 15 and the clamp at 0 never takes effect |
| `Tariff.CalculateEconomicImpact` | scripts/tariff-calculator/calculator.ts:68-98 | on the defaulted volume and factor: the jobs are the rounded jobs-affected figure, the revenue impact is 0.15 × volume + volume × duty / product value, the market-share impact is 0.15, and the score is the clamped score of the capped components, in [0, 100] |
| `Tariff.EconomicImpactFormulas` | scripts/tariff-calculator/calculator.ts:74-78 | the jobs are the rounded 0.15 × volume / 1e6 × factor, and the revenue impact is 0.15 × volume + volume × duty / product value, both on the defaulted volume and factor |
| `Tariff.ScoreUnclampedForNonNegativeInputs` | scripts/tariff-calculator/calculator.ts:82-90 | with positive value, volume and factor and a non-negative duty, the components are non-negative and the score lies in [15, 85] without clamping |
| `Tariff.Assemble` | scripts/tariff-calculator/calculator.ts:129-145 | the result has no VAT and a four-line breakdown; its total is the breakdown's sum, which is product + freight + insurance + duty; the effective rate times the product value is the duty |
| `Tariff.CalculateTotalLandedCost` | scripts/tariff-calculator/calculator.ts:129-145 | fails, naming the lane, exactly when the lane has no rule; otherwise its duty is that of `calculateTariffAmount`, its total sums the four-line breakdown, and its economic impact is `calculateEconomicImpact` of that duty |
| `Tariff.EffectiveRateIsResolvedRate` | scripts/tariff-calculator/calculator.ts:141 | with no freight and no insurance, the effective rate is exactly the resolved rate |
| `Tariff.DefaultLanesUnique` | scripts/tariff-calculator/calculator.ts:4-41 | no lane appears twice in the shipped table |
| `Tariff.DefaultLanes` | scripts/tariff-calculator/calculator.ts:4-41 | the shipped table's first rules for CA→US, MX→US and CN→US are its first, second and third entries |
| `Tariff.CanadaPrefixes` | scripts/tariff-calculator/calculator.ts:10-14 | the Canadian overrides test the literal prefixes "72", "76" and "84" |
| `Tariff.MexicoPrefixes` | scripts/tariff-calculator/calculator.ts:22-26 | the Mexican overrides test the literal prefixes "50", "87" and "07" |
| `Tariff.ChinaPrefixes` | scripts/tariff-calculator/calculator.ts:34-38 | the Chinese overrides test the literal prefixes "84", "94" and "61" |
| `Tariff.DefaultEmploymentFactorsByOrigin` | scripts/tariff-calculator/calculator.ts:44-48 | with no factor given, CA uses 5.2, MX 6.8 and CN 4.5, and any other origin uses 5.0 |
| `Tariff.ChinaChapter85TakesBaseRate` | scripts/tariff-calculator/calculator.ts:33-35 | HS code "85" from China takes the 0.10 base rate, because "84-85" tests only "84" |
| `Tariff.ChinaFurnitureScenario` | scripts/tariff-calculator/calculator.ts:36 | furniture (chapter 94) from China worth 50,000 pays 12,500 at the 0.25 override |
| `Tariff.CanadaUnmatchedScenario` | scripts/tariff-calculator/calculator.ts:9-14 | a Canadian code matching no override pays the 0.25 base rate: 10,000 pays 2,500 |
| `Tariff.MexicoVehiclesScenario` | scripts/tariff-calculator/calculator.ts:124-141 | vehicles from Mexico worth 100,000, with 2,000 freight and 500 insurance, pay 25,625, land at 128,125, and have an effective rate of 0.25625 |
| `Tariff.MexicoTextileRangeCode` | scripts/tariff-calculator/calculator.ts:23 | the range code "50-52" on the Mexican lane takes the 0.35 textile rate |
| `Tariff.UnknownLaneFails` | scripts/tariff-calculator/calculator.ts:56-58 | a lane with no rule (DE→US) fails with that lane named |
| `PersistentCache.Get` | src/lib/persistentCache.ts:15-57 | a value is returned exactly for a parsed entry at most one hour old with version "1.0"; expired and wrong-version entries are removed; missing and unparseable ones leave the store alone; each call counts one request and exactly one hit or miss |
| `PersistentCache.EvictionCount` | src/lib/persistentCache.ts:121 | `Math.ceil(0.2·n)`: the least count whose fivefold reaches n |
| `PersistentCache.SortByAge` | src/lib/persistentCache.ts:118 | the sort is a permutation of the items in ascending timestamp order |
| `PersistentCache.Candidates` | src/lib/persistentCache.ts:104-115 | the collected items are exactly the listed keys whose text parses, each once, as many as the store's parseable keys |
| `PersistentCache.Victims` | src/lib/persistentCache.ts:117-122 | the keys chosen for removal number ⌈0.2·n⌉ of the n parseable keys, and none is younger than a parseable key left behind |
| `PersistentCache.ClearOldItemsCollects` | src/lib/persistentCache.ts:103-125 | the key-by-key walk of `PersistentCache.ClearOldItems` collects exactly the parseable keys in listing order, then removes the oldest fifth of them |
| `PersistentCache.Evict` | src/lib/persistentCache.ts:103-125 | one `clearOldItems()` removes exactly ⌈0.2·n⌉ keys, all of them parseable |
| `PersistentCache.EvictShrinks` | src/lib/persistentCache.ts:122-124 | eviction only removes keys, leaves every other key's text as it was, and never removes an unparseable key |
| `PersistentCache.EvictTakesOldest` | src/lib/persistentCache.ts:117-124 | every removed key is parseable and no younger than any parseable key that survives |
| `PersistentCache.WriteInto` | src/lib/persistentCache.ts:63-73 | a successful write stores `{value, now, "1.0"}` under the key and counts one request, but no hit or miss |
| `PersistentCache.MakeRoomShrinks` | src/lib/persistentCache.ts:75-79 | the repeated eviction `PersistentCache.MakeRoom` only removes parseable keys, and stops when the key fits or nothing parseable is left; when it had to evict and then made room, the store ends below its quota |
| `PersistentCache.MakeRoomTakesOldest` | src/lib/persistentCache.ts:77 | over all rounds of eviction, every removed key is no younger than every parseable key kept |
| `PersistentCache.Set` | src/lib/persistentCache.ts:59-85 | a key that fits is written at once; otherwise the write is stored after eviction, or reported as not stored once nothing parseable is left; no other key changes except by eviction, unparseable keys survive, and the counters stay consistent; how much is evicted is bounded by `PersistentCache.SetEvictsOneRoundWhenEnough` |
| `PersistentCache.SetEvictsOldestFirst` | src/lib/persistentCache.ts:75-79 | every key `set` evicts is no younger than every parseable key it keeps |
| `PersistentCache.MakeRoomAsWritten` | src/lib/persistentCache.ts:75-79 | whenever the unguarded retry comes back, the key fits |
| `PersistentCache.SetAsWritten` | src/lib/persistentCache.ts:59-85 | whenever the written `set` comes back, the fresh entry is stored and one request is counted |
| `PersistentCache.AsWrittenNeverReturnsWhenNothingEvictable` | src/lib/persistentCache.ts:75-79 | on a full store with nothing parseable, no nested call of the written retry ever writes, however many are allowed, so in JavaScript it ends in a stack overflow |
| `PersistentCache.AsWrittenDivergesOnCorruptFullStore` | src/lib/persistentCache.ts:79 | a one-slot store holding unparseable text makes the written `set` retry without bound, so in JavaScript it ends in a stack overflow (`RangeError`); `Set` reports the write as not stored |
| `PersistentCache.SetAgreesWithAsWritten` | src/lib/persistentCache.ts:59-85 | whenever the written `set` comes back, `Set` stores and leaves exactly the same cache |
| `PersistentCache.AsWrittenReachesMakeRoom` | src/lib/persistentCache.ts:75-79 | whenever repeated eviction makes room, the written retries make the same room, given as many nested calls as there are parseable entries |
| `PersistentCache.AsWrittenAgreesWithSet` | src/lib/persistentCache.ts:59-85 | whenever `Set` stores, the written `set` comes back with the same cache, given enough nested calls |
| `PersistentCache.SetThenGet` | src/lib/persistentCache.ts:27-69 | a stored value is read back while it is at most one hour old |
| `PersistentCache.SetThenGetExpired` | src/lib/persistentCache.ts:30-35 | a stored value read more than one hour later is a miss, and its key is removed |
| `PersistentCache.SetEvictsOneRoundWhenEnough` | src/lib/persistentCache.ts:75-79 | when the key does not fit but one `clearOldItems()` makes room, the stored keys are exactly those that eviction round left, plus the new entry |
| `PersistentCache.SetOnFullStoreEvictsOnce` | src/lib/persistentCache.ts:75-79 | a store exactly at its quota with a parseable entry accepts a new key after exactly one eviction round, nothing more removed, and grows no larger |
| `PersistentCache.HasDisagreesWithGetOnStale` | src/lib/persistentCache.ts:99-101 | `has` (`PersistentCache.Has`, raw key presence) reports an expired or wrong-version key that `get` then misses and removes |
| `PersistentCache.HasCoversHits` | src/lib/persistentCache.ts:99-101 | every hit is a key `has` reports; a key `has` does not report is a miss that changes no entry |
| `PersistentCache.Delete` | src/lib/persistentCache.ts:87-89 | the key is removed, every other key keeps its text, and the counters are untouched |
| `PersistentCache.DeleteThenGetMisses` | src/lib/persistentCache.ts:87-89 | after `delete`, `has` is false and `get` misses |
| `PersistentCache.Clear` | src/lib/persistentCache.ts:91-97 | the store is empty and all three counters are zero |
| `PersistentCache.GetStats` | src/lib/persistentCache.ts:127-146 | the item count is the number of keys; the hit rate times the request count is the hits, the miss rate times it is the misses, and both rates are 0 before any request |
| `PersistentCache.RatesAreFractions` | src/lib/persistentCache.ts:142-143 | with consistent counters, both rates are non-negative and add up to at most one |
| `PersistentCache.ClearResetsStats` | src/lib/persistentCache.ts:91-146 | after `clear`, the stats report no items and zero rates, and every `get` misses |
| `TtlCache.Set` | src/lib/cache.ts:22-27 | the key holds the value stamped now, which is live; every other key is unchanged |
| `TtlCache.Get` | src/lib/cache.ts:29-40 | a value is returned exactly for a live item (age at most one hour); an expired item is deleted; nothing else changes |
| `TtlCache.Has` | src/lib/cache.ts:42-53 | true exactly for a live item; an expired item is deleted, as in `get` |
| `TtlCache.Delete` | src/lib/cache.ts:55-57 | the key is gone and every other key keeps its item |
| `TtlCache.Clear` | src/lib/cache.ts:59-61 | the map is empty |
| `TtlCache.SetThenGet` | src/lib/cache.ts:22-40 | up to and including an age of exactly one hour, `get` returns what `set` stored and deletes nothing |
| `TtlCache.SetThenGetExpired` | src/lib/cache.ts:34-37 | past one hour, `get` returns null and the key is gone while every other key stays |
| `TtlCache.HasAgreesWithGet` | src/lib/cache.ts:29-53 | at the same instant, `has` is true exactly when `get` returns a value, and both leave the same map |
| `TtlCache.GetTwice` | src/lib/cache.ts:29-40 | a second `get` at the same instant returns the same answer and purges nothing more |
| `TtlCache.SetOverwrites` | src/lib/cache.ts:22-27 | a second `set` of a key replaces the first one's value and timestamp |
| `TtlCache.DeleteKeepsOthers` | src/lib/cache.ts:55-57 | `delete` changes no other key's lookup, and the deleted key then misses |
| `TtlCache.ClearThenGet` | src/lib/cache.ts:59-61 | after `clear`, every `get` returns null and every `has` is false |
| `Duration.Split` | scripts/cache-cli.ts:24-32 | two units are shown exactly from one minute up; the leading unit is the largest with at least one whole; the second amount is below one leading unit; the two amounts bracket `ms` to within one finer unit; under a minute it is the whole seconds |
| `Duration.Render` | scripts/cache-cli.ts:29-32 | the text ends with the suffix of the finer unit shown, or with `s` |
| `Duration.FormatUnderAMinute` | scripts/cache-cli.ts:24-32 | under a minute the output is the whole seconds followed by `s`, and under a second it is "0s" |
| `Duration.FormatDaysAndHours` | scripts/cache-cli.ts:24-29 | from one day up the output is "<days>d <hours mod 24>h" |
| `Duration.FormatHoursAndMinutes` | scripts/cache-cli.ts:24-30 | from one hour to under a day the output is "<hours>h <minutes mod 60>m" |
| `Duration.FormatMinutesAndSeconds` | scripts/cache-cli.ts:24-31 | from one minute to under an hour the output is "<minutes>m <seconds mod 60>s" |
| `Duration.FormatDurationReadsBack` | scripts/cache-cli.ts:23-33 | the text `formatDuration` (`Duration.FormatDuration`) prints reads back as the reading `Split` makes of the milliseconds |
| `Duration.ParseRender` | scripts/cache-cli.ts:29-32 | reading the printed text back gives the reading it printed |
| `Duration.RenderInjective` | scripts/cache-cli.ts:29-32 | two different readings never print the same text |
| `Text.NatToStringRoundTrip` | scripts/cache-cli.ts:29-32 | the decimal digits a template literal prints for a whole number read back as that number |
| `Text.ContainsIffOccurs` | src/components/CategorySearch.tsx:17 | `includes` holds exactly when the query occurs at some position |
| `Text.IncludesIgnoresCase` | src/components/CategorySearch.tsx:17-20 | lower-casing either side does not change a case-insensitive match |
| `Slug.ReplaceRuns` | src/components/SubcategorySection.tsx:167 | the result uses only `a-z`, `0-9` and `-`, never has two `-` side by side, is no longer than the input, and starts or ends with `-` exactly when the input starts or ends with a replaced character |
| `Slug.Slug` | src/components/SubcategorySection.tsx:107 | a slug holds only `[a-z0-9-]`, never two adjacent `-`, and is no longer than the name |
| `Slug.SlugKeepsEdges` | src/components/SubcategorySection.tsx:299 | a leading or trailing run of other characters becomes a `-` and is not trimmed |
| `Slug.ReplaceRunsRun` | src/components/SubcategorySection.tsx:167 | a whole run of other characters, up to the next letter or digit or the end, becomes exactly one `-` |
| `Slug.NikeIncSlug` | src/components/SubcategorySection.tsx:299 | the company name "Nike, Inc." links as "nike-inc-": the comma and space become one `-`, and the trailing `.` becomes a `-` that is kept |
| `Slug.SlugKeepsAlnums` | src/components/SubcategorySection.tsx:353 | the lower-cased letters and digits of the name appear in the slug, all of them and in the same order, and no others |
| `Slug.SlugFixpoint` | src/components/SubcategorySection.tsx:107 | a text is in slug form exactly when slugging leaves it unchanged |
| `Slug.SlugIdempotent` | src/components/SubcategorySection.tsx:167 | slugging a slug changes nothing |
| `Slug.CompanyPath` | src/components/SubcategorySection.tsx:299 | the company link is `/company/` followed by the slug of the name |
| `Slug.SlugHasNoSlash` | src/components/SubcategorySection.tsx:253 | a slug never contains `/` |
| `Slug.CategoryPathDeterminesSlugs` | src/components/SubcategorySection.tsx:253 | the link `/category/<main>/<sub>` (`Slug.CategoryPath`) determines both slugs it was built from |
| `CategorySearch.HandleSearch` | src/components/CategorySearch.tsx:13-23 | a category is kept exactly when its title, its description or a subcategory name includes the query, ignoring case; there is no cut-off |
| `CategorySearch.HandleSearchKeepsOrder` | src/components/CategorySearch.tsx:15-22 | the kept categories are a subsequence of the list, in their original order |
| `CategorySearch.HandleSearchCounts` | src/components/CategorySearch.tsx:15-22 | each matching category is kept as often as it occurs, and the others not at all |
| `CategorySearch.EmptyQueryKeepsAll` | src/components/CategorySearch.tsx:17 | an empty query keeps the whole list |
| `CategorySearch.QueryCaseIgnored` | src/components/CategorySearch.tsx:17-20 | the case of the query makes no difference |
| `CompanyProductSearch.MatchedCompanies` | src/components/CompanyProductSearch.tsx:28-35 | a company matches exactly on its name, description or subsector, and not on its sector |
| `CompanyProductSearch.MatchedProducts` | src/components/CompanyProductSearch.tsx:37-44 | a product matches exactly on its name, description or category |
| `CompanyProductSearch.Suggest` | src/components/CompanyProductSearch.tsx:26-53 | a query of at most one character hides an empty list; a longer one shows at most six suggestions, none of them a category |
| `CompanyProductSearch.SuggestionsLayout` | src/components/CompanyProductSearch.tsx:47 | the list is the matched companies in order, then the matched products in order, cut at six |
| `CompanyProductSearch.CompaniesBeforeProducts` | src/components/CompanyProductSearch.tsx:47 | no product is listed ahead of a company |
| `CompanyProductSearch.SuggestionsMatch` | src/components/CompanyProductSearch.tsx:28-47 | every suggestion is a listed company or product that matches the query |
| `CompanyProductSearch.FewMatchesAllListed` | src/components/CompanyProductSearch.tsx:47 | while at most six things match, all of them are listed |
| `CompanyProductSearch.MatchesKeepOrder` | src/components/CompanyProductSearch.tsx:28-44 | the matched companies and the matched products each keep their source order |
| `UnifiedSearch.MatchedCategories` | src/components/UnifiedSearch.tsx:51-60 | a category matches exactly on its title, its description or a subcategory name; the matches keep their source order |
| `UnifiedSearch.MatchedCompanies` | src/components/UnifiedSearch.tsx:62-70 | a company matches exactly on its name, description, subsector or sector; the matches keep their source order |
| `UnifiedSearch.Run` | src/components/UnifiedSearch.tsx:49-109 | a query of at most one character hides an empty list and reports the full category list; otherwise at most six suggestions are shown, and the matched categories are reported only on the categories tab; which entries each tab shows is stated by the three single-tab layout lemmas and `UnifiedSearch.AllTabLayout` |
| `UnifiedSearch.TabListsOneKind` | src/components/UnifiedSearch.tsx:83-92 | the categories, companies and products tabs each list only their own kind |
| `UnifiedSearch.CategoriesTabLayout` | src/components/UnifiedSearch.tsx:83-97 | the categories tab lists the first six matched categories, in source order |
| `UnifiedSearch.CompaniesTabLayout` | src/components/UnifiedSearch.tsx:83-97 | the companies tab lists the first six companies matched on name, description, subsector or sector, in source order |
| `UnifiedSearch.ProductsTabLayout` | src/components/UnifiedSearch.tsx:83-97 | the products tab lists the first six matched products, in source order |
| `UnifiedSearch.AllTabOrdered` | src/components/UnifiedSearch.tsx:93-97 | on the "all" tab no company precedes a category and no product precedes a company |
| `UnifiedSearch.AllTabLayout` | src/components/UnifiedSearch.tsx:93-97 | on the "all" tab the list is the matched categories, then companies, then products, each in source order, cut at six |
| `UnifiedSearch.CategoryUpdateIsCategorySearch` | src/components/UnifiedSearch.tsx:101-103 | on the categories tab the reported list is exactly what the category search box computes for the query |
| `UnifiedSearch.CategoryUpdateUntruncated` | src/components/UnifiedSearch.tsx:97-103 | the reported category list is every match, while the suggestions are only its first entries |
| `UnifiedSearch.CompanyRuleWider` | src/components/UnifiedSearch.tsx:62-69 | every company the company/product box matches is matched here, and the two rules differ only on the sector |
| `UnifiedSearch.CompanyMatchesWider` | src/components/UnifiedSearch.tsx:62-70 | the companies the company/product box matches are a subsequence of those matched here |

## Left out

- `effectiveDate` of a rate rule is not modelled: it plays no part in rate choice.
- JavaScript numbers:
  - money and rates are exact reals, so floating-point rounding and `NaN`/`Infinity` are not modelled;
  - `calculateEconomicImpact` and `calculateTotalLandedCost` divide by the product value unguarded, so their models require it to be positive.
- `formatBytes` and every command of `scripts/cache-cli.ts` other than `formatDuration` are left out:
  - they print or use floating point;
  - several of them call cache methods that do not exist.
- Duration.Split: milliseconds are integers. A fractional millisecond count, which `Math.floor` would also accept, is not modelled.
- Response-time bookkeeping (`performance.now()`, `avgResponseTime`) and `totalSize` of `getStats` are left out: they are timings and JSON text lengths.
- JSON serialisation and `localStorage` itself are abstracted:
  - a stored text is either a full entry or unparseable;
  - an empty text behaves as unparseable, which `get`, `has` and eviction treat alike;
  - a text that parses as JSON but is not an entry object is not modelled.
- The storage quota is modelled as a maximum number of keys, not bytes. Overwriting an existing key always fits.
- Each nested retry of `set` stamps its own `Date.now()`; the model writes every retry with the same `now`, which differs from the source only by the milliseconds the evictions take.
- Write errors other than the quota error (which `set` rethrows) are not modelled.
- The enumeration order of `Object.keys(localStorage)` is a parameter. With equal timestamps, which keys are evicted depends on it.
- PersistentCache.Victims: states which timestamps are evicted, not which of several keys with equal timestamps; the stable sort decides that.
- Lower-casing is ASCII only. `toLowerCase` on other letters and UTF-16 lengths are not modelled.
- The React components are not modelled: rendering, routing, state setters and the click handlers around the effects. The network and AI-content code and the static data files are not modelled either.

## Findings

| source | as written | input that shows it | evidently intended | confidence | as-written member | corrected member |
|---|---|---|---|---|---|---|
| src/lib/persistentCache.ts:75-79 | on a quota error `set` runs `clearOldItems()` and calls itself again, with no condition | a store at its quota whose keys all hold unparseable text: eviction removes nothing, so every retry hits the quota again; the retries go on without bound until the stack overflows, so `set` rejects with a `RangeError` instead of storing or reporting the quota error | retry only while eviction can still free room, then give up | not executed | `PersistentCache.AsWrittenDivergesOnCorruptFullStore` | `PersistentCache.Set` |
