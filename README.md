# Browser filter, modelled in Dafny

A model of the core of laravel-browser-filter. This is a Laravel middleware package. It decides from a client's device family, browser family and browser version whether to redirect that client. The rules have the form device → browser → operator → version. A device can map instead to `'*'` (every browser), and a browser can map to `'*'` (every version). The rules come from two places: the configuration, or a compact filter string given on a route, such as `First/Second/<=3;First/Second/>4;Third`.

The model covers:

- **The filter-string parser.** The pure specification is in `RuleParser`. The imperative `StringFilterParsing.StringFilterParser` class updates its `rules` field segment by segment, with the `foreach` token loop. The parser proves:
  - splitting and dropping blank pieces;
  - defaulting missing fields to `'*'` and a bare version to `=`;
  - the wildcard-override laws and the operator-merge laws;
  - the worked filter strings of the route filter's tests, stated for any names of the same shape.
- **The matcher** (`DecipherRules`). It is true for a device wildcard, a browser wildcard, or any satisfied operator/version pair (pairs combine by OR). `isBlockedBrowserVersion` is modelled as a loop. `Versions` covers PHP's `version_compare` for dotted numeric versions and all fourteen operator spellings.
- **The decision-cache state machines** of the configuration middleware (`BrowserFilter.Filter`) and the stack middleware (`StackFilter.Filter`). Each is a class with a cache map field. `Handle` is proved equal to a pure step function, and lemmas state the redirect-path bypass, the stored-`false` case, miss and hit behaviour, "other keys untouched" and "a repeat is cached".
- **The route middlewares** (`RouteFilters`):
  - the block filter's `process` and `handle`;
  - the route filter's filter-string cache;
  - the allow filter, and the polarity table (`Polarity`);
  - the cache keys (`CacheKeys`);
  - the positional rule builder (`PositionalRules`).

`md5` is a function parameter about which nothing is assumed. `redirector->route(name)` is the value `RedirectResponse(name)`. `$next($request)` is the outcome `Next`. The client triple is an input: user-agent parsing is not modelled.

## Model

| member | source | states |
|---|---|---|
| Php.Explode | src/Route/RouteFilter.php:90 | explode yields at least one piece and no piece contains the separator |
| Php.JoinExplode | src/Route/RouteFilter.php:90 | joining the pieces of explode with the separator gives the string back |
| Php.ExplodeJoin | src/Route/RouteFilter.php:90 | explode undoes a join of separator-free pieces |
| Php.ExplodeWithoutSeparator | src/Route/RouteFilter.php:45 | a string without the separator explodes to itself alone |
| Php.ExplodeAround | src/Route/RouteFilter.php:90 | a separator between two strings splits exactly there |
| Php.JoinTail | src/Route/RouteFilter.php:18 | joining a prefix of the pieces with the joined rest gives the whole |
| Php.ExplodeLimit | src/Route/RouteFilter.php:18 | explode with a limit gives between one and limit pieces; only the last can hold the separator, and only when the limit is reached |
| Php.JoinExplodeLimit | src/Route/RouteFilter.php:18 | a limited explode loses nothing: joining its pieces gives the string back |
| Php.DropFalsy | src/Route/RouteFilter.php:18 | array_filter keeps only truthy strings and never lengthens the list |
| Php.DropFalsyAppend | src/Route/RouteFilter.php:90 | array_filter distributes over concatenation |
| Php.DropFalsyAllFalsy | src/Route/RouteFilter.php:90 | array_filter of a list of falsy strings is empty |
| Php.Pad | src/Route/RouteFilter.php:18 | array_pad keeps the list and fills it with the pad value up to the length |
| Php.NonDigitPrefixLength | src/Route/RouteFilter.php:47 | the length of the leading run of non-digits: every character before it is a non-digit, and the one at it (if any) a digit |
| Php.StripNonDigitPrefix | src/Route/RouteFilter.php:47 | preg_replace of the non-digit prefix leaves the suffix that is empty or starts with a digit |
| Php.RemoveDigitLedSuffix | src/Route/RouteFilter.php:49 | removing a digit-led suffix from a string whose prefix has no digit leaves exactly the prefix |
| Rules.GetBlockedBrowsers | src/Route/Filter.php:151-154 | rules[device] exactly when haveRulesForDevice, null otherwise |
| Rules.GetBlockedBrowserVersions | src/Route/Filter.php:159-163 | rules[device][browser] exactly when haveVersionsForBrowser, null otherwise |
| RuleParser.SplitRule | src/Route/RouteFilter.php:18 | the three fields after explode/array_filter/array_pad are all truthy |
| RuleParser.SplitTokenAsWritten | src/Route/RouteFilter.php:45-52 | preg_replace gives the text from the first digit on; str_replace of it, with `?: '='`, gives the non-digit prefix, or '=' when there is none |
| RuleParser.SplitTokenOfJoined | src/Route/RouteFilter.php:47-49 | an operator written before a version splits back into that operator and version |
| RuleParser.SplitBareVersion | src/Route/RouteFilter.php:49 | a token with no operator splits as an equality test |
| RuleParser.SplitTokenParts | src/Route/RouteFilter.php:47-49 | SplitToken: the operator is non-empty and digit-free, the version empty or digit-led, and operator then version spell the token, or the operator is the default '=' and the version is the whole token |
| RuleParser.MergeTokensKeys | src/Route/RouteFilter.php:43-52 | MergeTokens (the token loop): merging keeps every existing operator and adds each token's operator |
| RuleParser.MergeTokensUntouched | src/Route/RouteFilter.php:43-52 | an operator no token names keeps its existing version, or stays absent |
| RuleParser.MergeTokensAppend | src/Route/RouteFilter.php:45-52 | merging a concatenation of tokens is merging one list after the other |
| RuleParser.LaterTokenWins | src/Route/RouteFilter.php:51 | for a repeated operator the later token's version is the one kept |
| RuleParser.ExtractVersionsOutcome | src/Route/RouteFilter.php:40-55 | ExtractVersions: an Error exactly when tokens are merged into a browser that is '*'; no tokens keep the existing rule (or []); otherwise the operators are the existing ones plus every token's |
| RuleParser.ApplyRuleOutcome | src/Route/RouteFilter.php:16-35 | ApplyRule (extractRule): an Error exactly when a browser is named under a '*' device or tokens are merged into a '*' browser; on success only the segment's device gains or changes an entry |
| RuleParser.ParseSegmentsAppend | src/Route/RouteFilter.php:90 | ParseSegments: segments apply left to right: a longer list continues from the rules of its prefix |
| RuleParser.ParsePrefix | src/Route/RouteFilter.php:90 | every prefix of a segment list that parses also parses |
| RuleParser.ParseSegmentsStep | src/Route/RouteFilter.php:90 | the next segment applies to the rules left by the segments before it |
| RuleParser.ParseConcat | src/Route/StringFilterParser.php:68-71 | Parse: parsing 'a;b' is parsing a, then b on top of the result: nothing is reset between segments |
| RuleParser.ParseNothing | src/Route/StringFilterParser.php:68-71 | Parse: a filter string whose ';' pieces are all falsy ('', '0', ';', '0;;') leaves the rules as they are |
| RuleParser.FilterSegmentsOfJoin | src/Route/RouteFilter.php:90 | the segments of truthy, ';'-free strings joined by ';' are those strings |
| RuleParser.DropFalsyKeepsTruthy | src/Route/RouteFilter.php:18 | array_filter keeps a list of truthy strings unchanged |
| RuleParser.DeviceOnlySegment | src/Route/RouteFilter.php:18-25 | 'device' and 'device/' both mean device, browser '*', versions '*' |
| RuleParser.DeviceBrowserSegment | src/Route/RouteFilter.php:18-32 | 'device/browser' and 'device/browser/' both mean versions '*' |
| RuleParser.BlankBrowserField | src/Route/RouteFilter.php:18 | a blank middle field shifts the third field into the browser position, and the versions become '*' |
| RuleParser.FullSegment | src/Route/StringFilterParser.php:16 | only the first two '/' split: the version field keeps any further '/' |
| RuleParser.DeviceWildcardOverrides | src/Route/RouteFilter.php:21-25 | a device-only segment sets rules[device] to '*', replacing what it had, and changes nothing else |
| RuleParser.BrowserWildcardOverrides | src/Route/RouteFilter.php:28-32 | a device/browser segment sets rules[device][browser] to '*'; other browsers and devices are unchanged |
| RuleParser.VersionsMerge | src/Route/StringFilterParser.php:46-61 | a version field merges its tokens into the browser's existing operators |
| StringFilterParsing.OperatorVersion | src/Route/StringFilterParser.php:53-55 | the loop body gives the operator and version of the token's split |
| StringFilterParsing.MergeVersionTokens | src/Route/StringFilterParser.php:51-58 | the token loop gives the start rule with every token merged in, in order |
| StringFilterParsing.StringFilterParser.ExtractVersions | src/Route/StringFilterParser.php:46-61 | the method returns extractVersions of the browser's existing rule and the field |
| StringFilterParsing.StringFilterParser.ExtractRule | src/Route/StringFilterParser.php:14-35 | the new rules are the segment applied to the old rules |
| StringFilterParsing.StringFilterParser.ParseFilterString | src/Route/StringFilterParser.php:68-71 | the new rules are the string's segments applied, left to right, to the old rules |
| ParserExamples.TrailingSemicolon | src/Route/RouteFilter.php:90 | a trailing ';' changes nothing |
| ParserExamples.BareVersionField | src/Route/RouteFilter.php:45-52 | a bare version field is the single pair '=' ⇒ version |
| ParserExamples.TrailingBar | src/Route/RouteFilter.php:45 | a trailing '\|' adds no token |
| ParserExamples.OperatorToken | src/Route/RouteFilter.php:45-52 | an operator-and-version token sets that operator to that version |
| ParserExamples.NewVersions | src/Route/RouteFilter.php:34-52 | a full segment for a new device builds its one browser's operators from [] |
| ParserExamples.AddOperator | src/Route/RouteFilter.php:43-52 | a full segment adds an operator to a browser's existing operators |
| ParserExamples.DefaultsRemainingFields | tests/Route/RouteFilterTest.php:71-114 | 'First;Second/Third;Fourth/Fifth/6' gives {First: '*', Second: {Third: '*'}, Fourth: {Fifth: {'=': '6'}}}, for any names of that shape |
| ParserExamples.IgnoresBlankPieces | tests/Route/RouteFilterTest.php:119-162 | 'First/;Second/Third/;Fourth/Fifth/6\|;' gives the same rules: blank pieces after '/', '\|' and ';' are ignored |
| ParserExamples.MergesOperators | tests/Route/RouteFilterTest.php:167-208 | 'First/Second/<=3;First/Second/>4;First/Fifth' gives {First: {Second: {'<=': '3', '>': '4'}, Fifth: '*'}}; for a repeated operator the later version wins |
| ParserExamples.WildcardsOverride | tests/Route/RouteFilterTest.php:213-251 | 'First/Second/<=2;First/Second;Third/Forth/=3;Third' gives {First: {Second: '*'}, Third: '*'}: later wildcards replace earlier detail |
| Versions.OperatorRelation | src/Support/DecipherRules.php:58 | exactly the fourteen operator spellings have a meaning |
| Versions.Values | src/Support/DecipherRules.php:58 | each numeral's value as strtol reads it, saturated at LONG_MAX, in order |
| Versions.Compare | src/Support/DecipherRules.php:58 | the comparison is -1, 0 or 1, and 0 exactly for equal segment lists |
| Versions.CompareAntisymmetric | src/Support/DecipherRules.php:58 | swapping the arguments negates the comparison |
| Versions.CompareTransitive | src/Support/DecipherRules.php:58 | 'less than' on segment lists is transitive |
| Versions.LongerIsGreater | src/Support/DecipherRules.php:58 | a version followed by more segments is greater (1.2 < 1.2.0) |
| Versions.VersionCompare | src/Support/DecipherRules.php:58 | version_compare is -1, 0 or 1, and 0 exactly when the segment values agree |
| Versions.AliasesAgree | tests/FilterTest.php:706-1121 | spellings of one operator give the same answer |
| Versions.ConverseOperators | tests/FilterTest.php:792-1040 | a > b exactly when b < a; a >= b exactly when b <= a; == is symmetric |
| Versions.ComplementaryOperators | tests/FilterTest.php:854-1121 | >= is not <, <= is not >, != is not ==, and <= is < or == |
| Versions.LessIsTransitive | tests/FilterTest.php:916-976 | < on versions is transitive |
| Versions.JoinedNumerals | src/Support/DecipherRules.php:58 | numerals joined by '.' are a version whose segments are their values |
| Versions.LastSegmentDecides | src/Support/DecipherRules.php:58 | versions that differ only in their last segment compare as those segments |
| Versions.OrderedByLastSegment | tests/FilterTest.php:706-1121 | 1.2.2 < 1.2.3 and 1.2.3 > 1.2.2, for any shared prefix and any last numerals |
| Versions.SaturatedNumeralsTie | src/Support/DecipherRules.php:58 | numerals at or beyond LONG_MAX compare equal, as strtol saturates |
| Versions.OperatorTable | tests/FilterTest.php:706-1121 | Satisfies: for a lower and a higher version, which of higher-vs-lower, equal and lower-vs-higher each operator accepts |
| DecipherRules.AnySatisfiedAdd | src/Support/DecipherRules.php:57-59 | `$denied \|=` for one more pair ORs its answer into the others' |
| DecipherRules.IsBlockedBrowserVersion | src/Support/DecipherRules.php:50-62 | the loop's answer is true exactly when some pair is satisfied; no pair gives false |
| DecipherRules.IsBlocked | src/Support/DecipherRules.php:26-29 | device wildcard OR browser wildcard OR version match, short-circuited so '*' never reaches the version loop |
| DecipherRules.Determination | src/Support/DecipherRules.php:12-19 | truthy exactly when blocked, never true, and then the redirect to the route |
| DecipherRules.DetermineRedirect | src/Support/DecipherRules.php:12-19 | the method answers the redirect to the route when blocked, false otherwise |
| DecipherRules.DeviceWildcardBlocks | src/Support/DecipherRules.php:69-72 | a device mapped to '*' blocks every browser and version of it |
| DecipherRules.BrowserWildcardBlocks | src/Support/DecipherRules.php:36-39 | a browser mapped to '*' blocks every version of it |
| DecipherRules.NoRuleNoBlock | src/Support/DecipherRules.php:50-62 | no entry for the device or browser: not blocked |
| DecipherRules.BlockedByPairs | src/Support/DecipherRules.php:50-62 | with specific versions, blocked exactly when one of the pairs holds |
| DecipherRules.PairsCombineByOr | src/Support/DecipherRules.php:57-59 | one satisfied pair blocks, whatever the other pairs say |
| DecipherRules.BlockedExactly | src/Support/DecipherRules.php:26-72 | Blocked, read off the rule set: the device is '*', or the browser under it is '*', or one of its pairs is satisfied |
| Outcomes.Answer | src/Filter.php:152-156 | the decision is returned when truthy, otherwise the request goes to next |
| Polarity.FilterType | src/Route/BlockFilter.php:21 | the block filter reports 'block' and the allow filter 'allow'; neither has a ':' |
| Polarity.EmptyRules | tests/FilterTest.php:1143-1160 | NeedsRedirect: with empty rules, block does not redirect and allow does |
| Polarity.MatchedClient | tests/FilterTest.php:1215-1238 | for a client matched by its exact rule, block redirects and allow does not |
| CacheKeys.CutAtColon | src/Filter.php:76-79 | strings cut at a ':' that neither first part contains are cut at the same place |
| CacheKeys.DecisionKeyInjective | src/Filter.php:76-79 | DecisionKey: clients whose families have no ':' share a key only when they are the same client |
| CacheKeys.DecisionKeyCollision | src/Stack/Filter.php:93-96 | with a ':' in a family name, two different clients share a key |
| CacheKeys.RouteKeyLayout | src/Route/RouteFilter.php:60-63 | RouteDecisionKey (the route filters' generateCacheKey): the route key is the decision key, ':', the filter type, ':', then md5 of the path |
| CacheKeys.PolaritiesSeparateKeys | src/Route/RouteFilter.php:60-63 | a block filter and an allow filter never share a route key |
| CacheKeys.FilterStringKeySameHash | src/Route/RouteFilter.php:68-71 | FilterStringKey: filter strings share a cache key exactly when their md5 values are equal |
| CacheKeys.FilterStringKeyColon | src/Route/RouteFilter.php:68-71 | with a hash free of ':', a filter-string key holds one ':', right after 'filter_string' |
| CacheKeys.KeysApartFromFilterStrings | src/Route/RouteFilter.php:62-70 | decision keys and route keys never equal a filter-string key whose hash has no ':' |
| BrowserFilter.Lookup | src/Filter.php:136 | cache->get is the stored value exactly when the key is present, null otherwise |
| BrowserFilter.Settle | src/Filter.php:142-148 | the decision stored is never true; it is truthy exactly when a truthy value was stored or, on a miss, the matcher blocks |
| BrowserFilter.RedirectRoutePasses | src/Filter.php:130-132 | HandleStep: on the redirect route: next, and the cache unchanged |
| BrowserFilter.StoredFalsePasses | src/Filter.php:136-140 | a stored false: next, and nothing stored |
| BrowserFilter.MissStoresDecision | src/Filter.php:142-156 | on a miss a blocked client gets a redirect to the configured route, any other goes to next, and the decision is put with the timeout |
| BrowserFilter.HitIsPutBack | src/Filter.php:146-153 | a stored true or redirect is answered as a redirect and put back |
| BrowserFilter.OtherKeysUntouched | src/Filter.php:150 | only the client's own key can change |
| BrowserFilter.RepeatIsCached | src/Filter.php:136-150 | a repeated request gets the same answer, leaves the cache as it is and does not run the matcher |
| BrowserFilter.Filter.Handle | src/Filter.php:128-157 | the answer and the new cache are one step of the state machine; the matcher runs exactly on a miss off the redirect route |
| StackFilter.RedirectRoutePasses | src/Stack/Filter.php:147-149 | StackStep: on the redirect route: next, and the cache unchanged |
| StackFilter.HitChangesNothing | src/Stack/Filter.php:153-163 | any stored value, false included, is used as it is with no put |
| StackFilter.MissStoresDecision | src/Stack/Filter.php:155-165 | on a miss determineRedirect's answer is put with the timeout and returned when truthy |
| StackFilter.RepeatIsCached | src/Stack/Filter.php:153-159 | a repeated request gets the same answer and changes nothing |
| StackFilter.AgreesWithBrowserFilter | src/Stack/Filter.php:145-166 | the two middlewares answer alike unless the cache holds true for the client |
| StackFilter.Filter.Handle | src/Stack/Filter.php:145-166 | the answer and the new cache are one step of the stack state machine; the matcher runs exactly on a miss |
| RouteFilters.RedirectRouteFor | src/Route/Filter.php:168-172 | the per-route redirect route when it is truthy, else the configured one |
| RouteFilters.BlockFilter.Process | src/Route/BlockFilter.php:26-35 | a response exactly for a blocked client, and it is the redirect to the redirect route |
| RouteFilters.BlockFilter.Handle | src/Route/Filter.php:194-202 | records the redirect route (null included), parses the string on top of the held rules, then processes |
| RouteFilters.EmptyFilterString | src/Route/RouteFilter.php:78-80 | CachedParse: an empty or null filter string leaves the rules and the cache alone |
| RouteFilters.CachedRulesVerbatim | src/Route/RouteFilter.php:82-88 | a non-empty cached rule set becomes the rules as it is, with no put |
| RouteFilters.MissParsesFromEmpty | src/Route/RouteFilter.php:84-92 | otherwise the string is parsed from [] and put under its key with the timeout |
| RouteFilters.NoAccumulation | src/Route/RouteFilter.php:84 | for a truthy string the rules held before make no difference |
| RouteFilters.RepeatIsStable | src/Route/RouteFilter.php:82-92 | parsing the same string again gives the same rules and the same cache |
| RouteFilters.RouteFilter.ParseFilterString | src/Route/RouteFilter.php:76-93 | the new rules and cache are the cached-parse step of the old ones |
| RouteFilters.AllowFilterKey | src/Route/AllowFilter.php:15 | RouteFilter.GenerateCacheKey: an allow filter's decision key is the base key, ':allow:', then md5 of the path |
| PositionalRules.RuleFromArguments | src/RouteFilter.php:80-93 | one device key; '*' browser gives a device wildcard, '*' version a browser wildcard, otherwise the single pair operator ⇒ version |
| PositionalRules.BlocksExactly | src/RouteFilter.php:80-93 | the built rules block exactly the clients of that device, of that browser unless '*', whose version satisfies the operator unless '*' |
| PositionalRules.OneSegment | src/Route/RouteFilter.php:90 | a single truthy segment parses as that segment alone |
| PositionalRules.AgreesOnDevice | src/RouteFilter.php:83-85 | handle(device) builds the same rules as the filter string 'device' |
| PositionalRules.AgreesOnBrowser | src/RouteFilter.php:88-90 | handle(device, browser) builds the same rules as 'device/browser' |
| PositionalRules.AgreesOnVersion | src/RouteFilter.php:92 | handle with all four arguments builds the same rules as 'device/browser/operatorversion' |
| PositionalRules.AgreesOnDefaultOperator | src/RouteFilter.php:80 | the default operator '=' agrees with a bare version in a filter string |

## Left out

- User-agent parsing (src/ParserCreator.php and src/Support/ParserCreator.php) is not part of this model. The client triple is an input.
- The HTTP request, `$next`, the redirector and the session are left out. The request is reduced to its path, `$next` to the outcome `Next`, and `redirector->route` to a `RedirectResponse` value.
- The service provider, the configuration publishing and the contract interface are not part of this model.
- The configuration is a `Config` value. Its `blocked` rule set stands for Laravel's dot-path lookup of `browserfilter.blocked.<device>[.<browser>]`. A family name that contains '.' would make the dot path read a different key; the model does not capture that.
- The configured redirect route is taken to be a string. A missing route, which is null in PHP, is not modelled.
- The cache timeout is stored with each entry as an opaque number. Entries never expire in the model.
- `md5` is an arbitrary function parameter. Nothing about collisions is assumed beyond what the lemmas take as hypotheses.
- Versions: only dotted numeric versions (and "") are compared. PHP's special ranks (alpha, beta, RC, pl) and its '-', '_' and '+' separators are left out.
- Operators: only the fourteen spellings are modelled. Any other operator, whose behaviour depends on the PHP version, is excluded by the `Comparable` precondition. That precondition applies only where a comparison happens: a wildcard, a missing rule, a cache hit and the redirect route ask nothing of the operators or versions.
- The digit class `\d` of the `/u` pattern is taken as ASCII '0'..'9'.
- Versions.SegmentValue: strtol saturates at LONG_MAX, taken here as the 64-bit value 9223372036854775807. A 32-bit build saturates at 2147483647 instead, which the model does not capture.
- RouteFilters.RouteFilter.ParseFilterString: takes a string only. The PHP signature at src/Route/RouteFilter.php:76 also accepts an array. An empty array returns at line 78 like an empty string. A non-empty array raises a TypeError at line 82, where the key generator expects a string; the model does not capture that.
- A specific browser or version segment that lands on a wildcard for the same key makes PHP index into the string '*'. PHP raises an Error there. `RuleParser.ApplyRule` returns `None` for it, and the imperative parser methods require that it does not happen.
- A version field whose tokens are all blank, on a browser already mapped to '*': extractVersions then returns '*' where its return type in src/Route/RouteFilter.php:40 says array. PHP raises a TypeError there, but the model keeps '*'.
- The rule validator, `needsRedirecting`, the session 'redirected' flag and the missing-filter-type exception are exercised by the tests, but their source is not part of this model.
- The three copies of the parser (src/Route/RouteFilter.php, src/Route/StringFilterParser.php, src/Route/Filter.php) share one imperative class, `StringFilterParser`. The route filter's copy differs only in resetting the rules from its cache, and `RouteFilters.RouteFilter.ParseFilterString` models that around the shared class.
- `haveVersionsForBrowser` on a device mapped to '*' is modelled as false. In PHP 8, `array_key_exists` on a string raises a TypeError. The short-circuit in `isBlocked` means the matcher never reaches that case.
- The rules cache of the route filter and its decision cache are separate maps in the model. In PHP they are one store with disjoint key prefixes.
- A null filter string is modelled as "", which PHP treats the same way (`empty`).
- The source files come from different revisions and do not compile together. For example, src/Route/BlockFilter.php extends a `Filter` that lacks `determineRedirect`. Each file's own logic is modelled.
- `BrowserFilter.Filter.Handle`, `StackFilter.Filter.Handle`, `RouteFilters.RouteFilter.ParseFilterString` and `RouteFilters.BlockFilter.Handle` state their new state with `old`. The properties they promise are proved about the step functions in the lemmas beside them.
