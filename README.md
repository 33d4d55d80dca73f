# A verified model of the `cf` Cloudflare CLI core

`cf` is a small command-line helper. It lists registrar domains, lists and
creates DNS zones, and creates DNS records through the Cloudflare REST API.
All of it lives in `cmd/cf/main.go`. Most of that file is HTTP, JSON and
terminal glue. This project models the rules inside the glue, and proves
what they promise:

- **Flags** — `parseFlags`, the `--k=v` / `--k v` / bare `--k` parser. It is
  an index loop over the arguments that sometimes skips one ahead. The
  method is proved equal to a declarative definition: the keys of the
  result are the keys of the flag arguments, and each key maps to the value
  its last flag argument assigns.
- **Values** — `parseBoolWithDefault` and `parseIntWithDefault`. Blank means
  the default. The booleans are `true`, `yes` (in any case) and exactly
  `1`. The numbers are `strconv.Atoi`.
- **Prompts** — the pure part of `prompt` and `promptYesNo`: what a line,
  once read, answers.
- **Credentials** — `resolveAPIToken` and `resolveAccountID`, with the two
  package-level caches. They are the class `Session`, with the fields
  `cachedAPIToken` and `cachedAccountID`. Each method is proved against a
  resolution function of the old cache and the sources. The lemmas state:
  - the sources are consulted in order;
  - the cache is written only on success;
  - a resolved value sticks for the rest of the run.
- **Accounts** — `inferAccountIDFromMemberships` after its HTTP exchange.
  It reports a failed request's API errors; otherwise it decides 0, 1 or
  many accounts, and builds the `"Name (ID)"` listing in a loop.
- **ApiErrors** — `formatAPIErrors`, which joins `"code: message"` parts
  with `"; "`, or gives the HTTP status when no errors were returned.
- **Commands** — the dispatch of `run()`:
  - `isHelp`;
  - which command the arguments select;
  - the `dns add` request built from the parsed flags: type upper-cased,
    ttl 1 and proxied false by default, and a bad ttl reported before
    missing required flags.

Three modules model the Go library calls the core relies on:

- `GoStrings` covers `strings.TrimSpace` (with `unicode.IsSpace`),
  `HasPrefix`, `TrimPrefix`, `Index`, `EqualFold`, `ToUpper` and `Join`.
- `GoStrconv` covers `strconv.Atoi` on a 64-bit `int` with its `NumError`,
  and the `%d` rendering.
- `Wrappers` holds `Option`/`Result`.

Inputs that come from outside the process are parameters:

- The environment is a `map<string, string>`.
- The Wrangler step (`wrangler auth token --json` plus JSON decoding) is a
  `Result` of the decoded `token` field or the failure's text.
- The memberships request is a function from the token to the decoded
  response, or to the transport or decoding failure.

Go errors in the modelled code are only ever rendered. They are therefore
modelled as their message text, except `strconv.NumError`, which is kept as
a datatype.

Facts about the code:

- `explainZoneCreatePermissionError` and `cmdRunner` are used by
  `cmd/cf/main_test.go` (cmd/cf/main_test.go:13-23, 40-52 and 67), but neither is
  defined in `cmd/cf/main.go`. `tokenFromWrangler` calls `exec.Command`
  directly (cmd/cf/main.go:234-235).
- Environment tokens are trimmed (cmd/cf/main.go:185,190). A Wrangler
  token is only checked to be non-blank once trimmed, and is returned
  untrimmed (cmd/cf/main.go:246-249). `Credentials.TrimmedOnlyFromEnv`
  shows the difference.
- An inferred account always goes into the cache. When the membership has
  an empty `id`, the cache holds `""`, which the next call treats as
  nothing cached (cmd/cf/main.go:229; see `Credentials.AccountMemoized`).
- An error from the memberships request or from decoding its response is
  passed on unchanged (cmd/cf/main.go:261-279).

## Model

| member | source | states |
|---|---|---|
| `GoStrings.TrimLeft` | cmd/cf/main.go:185 | the left trim of `strings.TrimSpace` is no longer than its input, and it does not start with white space |
| `GoStrings.TrimLeftCut` | cmd/cf/main.go:185 | the left trim keeps a suffix of the input and removes only white space |
| `GoStrings.TrimRight` | cmd/cf/main.go:185 | the right trim is no longer than its input, and it does not end with white space |
| `GoStrings.TrimRightCut` | cmd/cf/main.go:185 | the right trim keeps a prefix of the input and removes only white space |
| `GoStrings.TrimSpace` | cmd/cf/main.go:478 | `strings.TrimSpace`: the result neither starts nor ends with white space, and it is empty exactly when the input is all white space |
| `GoStrings.TrimSpaceBlock` | cmd/cf/main.go:603 | the trimmed text is a contiguous block of the input with only white space before and after it |
| `GoStrings.TrimSpaceParts` | cmd/cf/main.go:185 | a left cut followed by a right cut leaves such a block, and the result is empty exactly when the input is all white space |
| `GoStrings.AllSpaceConcat` | cmd/cf/main.go:478 | white space followed by white space is white space |
| `GoStrings.TrimLeftOf` | cmd/cf/main.go:185 | the left trim of white space followed by a text that starts with a non-space is that text |
| `GoStrings.TrimRightOf` | cmd/cf/main.go:185 | the right trim of a text that ends with a non-space, followed by white space, is that text |
| `GoStrings.TrimSpaceOf` | cmd/cf/main.go:603 | trimming a block that has white space around it gives exactly the block |
| `GoStrings.TrimSpaceOfTrimmed` | cmd/cf/main.go:603 | a text with no white space at either end is unchanged by trimming |
| `GoStrings.TrimSpaceIdempotent` | cmd/cf/main.go:603 | trimming twice is trimming once |
| `GoStrings.TrimPrefix` | cmd/cf/main.go:462 | `strings.TrimPrefix`: with the prefix present, prefix + result is the input; without it, the input is unchanged |
| `GoStrings.Index` | cmd/cf/main.go:461 | `strings.Index` for one character: -1 exactly when the character is absent, otherwise the position of its first occurrence |
| `GoStrings.ToUpperIdempotent` | cmd/cf/main.go:93 | upper-casing an upper-cased text changes nothing |
| `GoStrings.EqualFoldToUpper` | cmd/cf/main.go:93 | upper-casing does not change case-insensitive equality |
| `GoStrings.AllSpaceToUpper` | cmd/cf/main.go:93 | upper-casing does not change whether a text is blank |
| `GoStrings.JoinSnoc` | cmd/cf/main.go:306 | `strings.Join` of one more part adds the separator and that part at the end |
| `GoStrings.JoinContainsPart` | cmd/cf/main.go:295 | every part occurs in the joined text |
| `GoStrings.InfixTransitive` | cmd/cf/main.go:295 | an occurrence inside an occurrence is an occurrence |
| `GoStrconv.DigitValue` | cmd/cf/main.go:488 | a digit's value is below 10 |
| `GoStrconv.Atoi` | cmd/cf/main.go:488 | every `strconv.Atoi` error names the function "Atoi" and the input text |
| `GoStrconv.DigitsValuePrefix` | cmd/cf/main.go:488 | a prefix of a digit string denotes no more than the whole |
| `GoStrconv.ScanUintCorrect` | cmd/cf/main.go:488 | the unsigned scan succeeds exactly on digit strings up to 2^64-1, and returns their value; a longer number is a range error |
| `GoStrconv.AtoiCorrect` | cmd/cf/main.go:488 | `Atoi` succeeds exactly on an optional sign and one or more digits that denote a 64-bit int, and returns that value; a well-formed number out of range is a range error |
| `GoStrconv.Digit` | cmd/cf/main.go:304 | the character for a digit value is a digit with that value |
| `GoStrconv.FormatNat` | cmd/cf/main.go:304 | `%d` of a natural number is non-empty and starts with a digit |
| `GoStrconv.FormatNatDigits` | cmd/cf/main.go:304 | `%d` of a natural number is a digit string that denotes it, with no leading zero |
| `GoStrconv.FormatInt` | cmd/cf/main.go:300 | `%d` of an int is non-empty and never starts with `+` |
| `GoStrconv.FormatIntDecimal` | cmd/cf/main.go:300 | `%d` of an int is a signed decimal that denotes it |
| `GoStrconv.AtoiFormatInt` | cmd/cf/main.go:488 | `Atoi` reads back what `%d` writes, for every 64-bit int |
| `Flags.LastFlag` | cmd/cf/main.go:453-475 | the position of the last flag argument for a key among the first n arguments, or -1: it is such a flag, and no later flag has that key |
| `Flags.ParseFlags` | cmd/cf/main.go:453-475 | the loop, with its skip over a consumed value, builds exactly the map of the declarative definition `Flags.Flags` |
| `Flags.LastFlagIs` | cmd/cf/main.go:453-475 | the last flag position is the only position with that characterisation |
| `Flags.FlagsBeforeMeaning` | cmd/cf/main.go:453-475 | the keys of the result are the keys of the flag arguments; each maps to the value its last flag argument assigns |
| `Flags.FlagsBeforeKeys` | cmd/cf/main.go:455-472 | the keys filled are exactly the keys of the flag arguments |
| `Flags.FlagsBeforeValues` | cmd/cf/main.go:461-472 | each key holds the value its last flag argument assigns |
| `Flags.KeyShape` | cmd/cf/main.go:461-466 | a key has no `=`; the argument is `--`, the key, then its end or `=`; a bare flag is exactly `--` + key |
| `Flags.EqualsForm` | cmd/cf/main.go:461-463 | `--k=v` assigns v, everything after the first `=`, possibly empty or holding more `=`, to k; the next argument plays no part |
| `Flags.BareForm` | cmd/cf/main.go:466-472 | a bare `--k` takes the next argument when there is one that does not start with `--`, and `"true"` otherwise |
| `Flags.FlagsKeysComeFromFlags` | cmd/cf/main.go:455-466 | every key of the result comes from a `--` argument with `--` removed, up to its first `=`; every flag argument's key is in the result |
| `Flags.LastAssignmentWins` | cmd/cf/main.go:461-472 | a repeated key keeps the value of its last flag argument |
| `Flags.FlagsBeforeCongruent` | cmd/cf/main.go:453-475 | two argument lists that agree on a prefix, and on what its flags assign, parse that prefix alike |
| `Flags.AppendAssignment` | cmd/cf/main.go:461-463 | appending `--k=v` sets k to v and changes nothing else |
| `Flags.InsertIgnored` | cmd/cf/main.go:456-458 | inserting an argument that does not start with `--` changes nothing, unless it lands right after a bare flag and is taken as its value |
| `Flags.InsertShift` | cmd/cf/main.go:453-475 | past the inserted argument, the longer list reads one position later what the shorter one reads |
| `Flags.AssignedShift` | cmd/cf/main.go:461-472 | a flag argument assigns the same value when it and its successor sit one position later |
| `Values.ParseBoolWithDefault` | cmd/cf/main.go:477-482 | blank gives the fallback; otherwise true exactly for `true` or `yes` in any case, or exactly `1` |
| `Values.ParseBoolIgnoresFallback` | cmd/cf/main.go:481 | for a non-blank value, the fallback plays no part |
| `Values.ParseBoolCaseInsensitive` | cmd/cf/main.go:481 | upper-casing a value does not change how it parses |
| `Values.ParseBoolUntrimmed` | cmd/cf/main.go:478-481 | the value itself is not trimmed: `" true"` is false |
| `Values.ParseIntWithDefault` | cmd/cf/main.go:484-493 | blank gives the fallback and no error; an error always comes with 0 |
| `Values.ParseIntMeaning` | cmd/cf/main.go:488-492 | a non-blank value is accepted exactly when it is a 64-bit signed decimal, and gives its value; otherwise 0 and an `Atoi` error naming the value |
| `Values.ParseIntFormatInt` | cmd/cf/main.go:484-493 | every 64-bit int written in decimal parses back to itself |
| `Values.ParseIntUntrimmed` | cmd/cf/main.go:488 | `" 5"` is a syntax error, not 5 |
| `Prompts.PromptAnswer` | cmd/cf/main.go:603-607 | a blank line gives the fallback; otherwise a non-empty text with no white space at its ends, which occurs in the line with only white space around it |
| `Prompts.YesNoAnswer` | cmd/cf/main.go:619-628 | blank gives the fallback; `y`/`yes` in any case gives true; `n`/`no` gives false; anything else gives the fallback |
| `Prompts.YesNoDisjoint` | cmd/cf/main.go:622-627 | no answer is both a yes and a no |
| `Prompts.YesNoUpperCase` | cmd/cf/main.go:603-624 | `"  YES\n"` is yes |
| `Prompts.YesNoCrLf` | cmd/cf/main.go:603-627 | a `No` ended by CR LF is no |
| `Prompts.YesNoOther` | cmd/cf/main.go:628 | an unrecognised answer gives the fallback |
| `ApiErrors.FormatAPIErrors` | cmd/cf/main.go:298-307 | the loop builds exactly the specified message: the HTTP status for no errors, otherwise the parts joined by `"; "` |
| `ApiErrors.StatusInMessage` | cmd/cf/main.go:299-301 | with no errors, the message has the fixed prefix, ends with `)`, and the status reads back between them |
| `ApiErrors.EveryErrorInMessage` | cmd/cf/main.go:302-306 | every error's `"code: message"` occurs in the message |
| `ApiErrors.SingleErrorMessage` | cmd/cf/main.go:302-306 | a single error is the whole message |
| `ApiErrors.MessageAppend` | cmd/cf/main.go:302-306 | one more error adds `"; "` and its part at the end |
| `Accounts.SelectAccount` | cmd/cf/main.go:284-295 | the selection, with its listing loop, gives exactly the specified result |
| `Accounts.InferAccountID` | cmd/cf/main.go:280-295 | a failed request gives its API errors, otherwise the selection |
| `Accounts.SelectionCases` | cmd/cf/main.go:284-295 | zero memberships give the "no memberships" error; exactly one succeeds with its ID; two or more give the "multiple accounts" error |
| `Accounts.EveryCandidateListed` | cmd/cf/main.go:291-295 | with two or more memberships, every entry's `"Name (ID)"`, name and ID occur in the error |
| `Accounts.FailedRequestReportsErrors` | cmd/cf/main.go:280-282 | an HTTP status of 400 or more, or `success: false`, gives the formatted API errors |
| `Credentials.Setting` | cmd/cf/main.go:185-214 | a trimmed variable is empty exactly when the variable is unset or blank, and otherwise has no white space at its ends |
| `Credentials.TokenFromWrangler` | cmd/cf/main.go:233-250 | the Wrangler step succeeds exactly on a decoded token that is not blank, and returns it untrimmed |
| `Credentials.Session.constructor` | cmd/cf/main.go:21-22 | a run starts with both caches empty |
| `Credentials.Session.ResolveAPIToken` | cmd/cf/main.go:180-202 | returns the token resolution of the old cache, environment and Wrangler output; the cache then holds the token on success and is unchanged on failure |
| `Credentials.Session.ResolveAccountID` | cmd/cf/main.go:204-231 | returns the account resolution; the account cache holds it on success; the token cache changes only when the token had to be resolved |
| `Credentials.TokenCacheHit` | cmd/cf/main.go:181-183 | a cached token is returned and no source is consulted |
| `Credentials.TokenPrecedence` | cmd/cf/main.go:185-201 | with nothing cached: trimmed `CF_API_TOKEN`, then trimmed `CLOUDFLARE_API_TOKEN`, then a non-blank Wrangler token as it is, else the "missing API token" error |
| `Credentials.TokenNonBlank` | cmd/cf/main.go:180-202 | every token handed out has a non-space character |
| `Credentials.TokenMemoized` | cmd/cf/main.go:180-202 | after a success, the next call returns the same token whatever the sources say; a failure is the "missing API token" error and leaves the cache empty |
| `Credentials.WranglerOnlyAsFallback` | cmd/cf/main.go:195-196 | Wrangler matters only when both variables are blank and nothing is cached |
| `Credentials.TrimmedOnlyFromEnv` | cmd/cf/main.go:185-249 | `" tok "` in `CF_API_TOKEN` gives `tok`, but from Wrangler it stays `" tok "` |
| `Credentials.WranglerLoginScenario` | cmd/cf/main.go:195-198 | with no token variables and Wrangler answering `tok-123`, the token is `tok-123` |
| `Credentials.AccountCacheHit` | cmd/cf/main.go:205-207 | a cached account ID is returned and no source is consulted |
| `Credentials.AccountPrecedence` | cmd/cf/main.go:209-217 | with nothing cached: trimmed `CF_ACCOUNT_ID`, then trimmed `CLOUDFLARE_ACCOUNT_ID` |
| `Credentials.InferenceOnlyAsFallback` | cmd/cf/main.go:209-222 | while an account variable is set, neither the token sources nor the memberships request matter, and the token cache is untouched |
| `Credentials.AccountFromInference` | cmd/cf/main.go:219-230 | with both variables blank, a token error is passed on; otherwise the result is the inference for the resolved token; an error leaves the account cache empty |
| `Credentials.AccountMemoized` | cmd/cf/main.go:204-231 | a resolved non-empty account ID is returned again by later calls, whatever the sources say |
| `Credentials.SingleMembershipScenario` | cmd/cf/main.go:287-289 | a successful memberships response with exactly one entry resolves to its ID |
| `Credentials.ResolveTokenTwice` | cmd/cf/main.go:180-202 | two calls in one session: the second returns the first's token even after the sources change |
| `Commands.RouteHelp` | cmd/cf/main.go:64-67 | the help text is chosen exactly for no arguments or a first argument that `isHelp` (cmd/cf/main.go:113-115) accepts, which are exactly `help`, `--help` and `-h` |
| `Commands.RouteOperands` | cmd/cf/main.go:81-91 | `zones add` is chosen exactly with a third argument, which is the domain; `dns add` gets exactly the arguments after its two words |
| `Commands.RouteCommands` | cmd/cf/main.go:69-88 | past the help check, `wizard` is chosen exactly for a leading `wizard`, `registrar list` and `zones list` exactly for those two words, and the `zones add` usage error exactly for `zones add` with nothing after it |
| `Commands.RouteUnknown` | cmd/cf/main.go:69-110 | the "unknown command" error is given exactly when the arguments are non-empty, do not start with a help word or `wizard`, and do not start with `registrar list`, `zones list`, `zones add` or `dns add` |
| `Commands.ParseDnsAdd` | cmd/cf/main.go:90-106 | the `dns add` branch gives the request or error that `DnsAddFromFlags` defines on the parsed flags |
| `Commands.DnsAddMeaning` | cmd/cf/main.go:92-104 | success exactly for a blank or valid 64-bit ttl and four non-empty required flags; a bad ttl is reported first; the request carries the zone, name and content as given, the type upper-cased, the ttl defaulting to 1, and proxied false for a blank flag and otherwise true exactly for `true` or `yes` in any case or `1` |
| `Commands.DnsAddDefaults` | cmd/cf/main.go:96-100 | without `--ttl` and `--proxied` the record has ttl 1 and is not proxied |
| `Commands.DnsAddTtlFlag` | cmd/cf/main.go:91-96 | a trailing `--ttl=n` for a 64-bit n is never a bad ttl and sets the ttl to n |
| `Commands.DnsAddValidTtl` | cmd/cf/main.go:96-106 | a ttl that parses to n is never reported as bad, and becomes the record's ttl |

## Left out

- HTTP: `requestCF`, the request and response decoding of `inferAccountIDFromMemberships`, `listRegistrarDomains`, `listZones`, `getZoneByName`, `addZone`, `addDNSRecord`. These are network I/O. Their results are inputs of the model.
- JSON decoding, including Wrangler's `--json` output. This is a foreign library. The model takes the decoded token field, or the failure's text, as an input.
- Subprocesses: the `wrangler auth token --json` run in `tokenFromWrangler`, and `openURL`. These are OS interaction; the Wrangler result is an input.
- Standard input and output: reading the line in `prompt` (including its read errors), `printHelp`, `fmt.Print*`, and the interactive `runWizard` script. This is I/O sequencing. Only the answer mapping of the prompts is modelled.
- `explainZoneCreatePermissionError` and `cmdRunner` are not defined in `cmd/cf/main.go`. They are only referenced from `cmd/cf/main_test.go`, so there is no code to model.
- `main` and the process exit, and the rendering of the wrapped errors (`invalid --ttl: %w`). Errors of `dns add` are a datatype rather than their text.
- Commands.Route: has no contract of its own; its lemmas `RouteHelp`, `RouteCommands`, `RouteOperands` and `RouteUnknown` state its cases.
- GoStrings.EqualFold: folds ASCII letters plus U+017F and U+212A onto `s` and `k`, not all of Unicode's simple folding. Every call in the code compares with an ASCII literal, and for those this is exact.
- GoStrings.ToUpper: upper-cases ASCII letters only. Go's `strings.ToUpper` maps every Unicode letter. This affects only the record type text of `dns add`.
- GoStrings.TrimSpace: works on code points. Invalid UTF-8 is not modelled, because a `string` here is a sequence of characters.
- GoStrconv.Atoi: assumes a 64-bit platform `int`. The text of a `NumError` (from `strconv.Quote`) is not modelled. On a value out of the 64-bit range Go's `strconv.Atoi` returns the clamped `MaxInt64` or `MinInt64` with a range error, while the model returns only the error; nothing in the command line tool sees the difference, since `parseIntWithDefault` returns 0 on any error (cmd/cf/main.go:489-490).
- Credentials.AccountMemoized: requires the resolved ID to be non-empty. The code caches an empty inferred ID, and the guard `cachedAccountID != ""` then treats it as nothing cached, so the next call resolves again.
