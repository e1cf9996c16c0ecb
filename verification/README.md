# Nagios prober of the Blackbox Exporter, in Dafny

This project models the Nagios prober of the ScienceMesh Blackbox Exporter (`prober/nagios.go`). A
probe runs a Nagios plugin against a target and turns what the plugin reports into a result.

1. It resolves the configured check to a binary: in the `checks` directory under the working
   directory, then on the search path; an absolute path must exist.
2. It builds a placeholder map from the probe's URL parameters, the target, the parts of the target
   URL and, for a `site` parameter, that site's test credentials.
3. It turns the module's argument template into an argv. Dash options are cut at their first space,
   and every `$name$` token whose lower-cased name is a key is replaced.
4. It starts the check. When a proxy is configured, six proxy variables are appended to the
   exporter's environment.
5. It classifies the exit code. For the four plugin results it splits the output into a message and
   perf-data segments, and parses the segments into a key-to-number map.
6. It publishes the result and returns the success verdict.

Modules:

- `GoStrings` (`gostrings.dfy`): the parts of Go's `strings`, `unicode`, `strconv` and `fmt` that the
  prober relies on.
- `NagiosArguments` (`arguments.dfy`): `parseNagiosArguments`, including a direct model of the
  greedy `\$\S*\$` scan.
- `NagiosOutput` (`output.dfy`): `splitNagiosOutput`.
- `NagiosPerfData` (`perfdata.dfy`): `parseNagiosPerfData`.
- `ProxyEnvironment` (`environment.dfy`): `getProxyEnvVariables` and the child environment.
- `NagiosProbe` (`probe.dfy`): binary resolution, placeholders, credentials, exit classification,
  `runNagiosCheck` and `ProbeNagios`.
- `Wrappers` (`wrappers.dfy`): `Option` and `Result`.

The three Go functions built from loops (`parseNagiosArguments`, `splitNagiosOutput` and
`parseNagiosPerfData`) are methods. Each is proved equal to a specification function, and the
promised properties are lemmas about those functions. `runNagiosCheck` and `ProbeNagios` are
methods too, proved equal to the functions `RunCheck` and `Probe`. Everything outside the exporter
is a parameter: the file system and `PATH` search (`Host`), `url.Parse`, the site accounts service,
the process (`Invocation -> Termination`) and `strconv.ParseFloat`.

Three behaviours of the code are easy to miss, and the model keeps them.

- URL parameters are stored under their names as given (prober/nagios.go:89), and only the name
  looked up is lower-cased (line 196). So a parameter whose name holds an upper-case letter can
  never be substituted (`NagiosArguments.UpperCaseKeyUnused`).
- The message is the text before the first '|' of the first non-blank line, not of the first line
  (`NagiosOutput.MessageFromFirstNonBlankLine`).
- The argv is logged as it is after substitution (line 116), test credentials included. Nothing
  in the prober masks them. Logging itself is not modelled.

## Model

| member | source | states |
|---|---|---|
| GoStrings.Split | prober/nagios.go:137 | strings.Split: at least one piece, no piece holds the separator, and joining the pieces with it gives the input back |
| GoStrings.SplitJoin | prober/nagios.go:142 | splitting undoes joining pieces that hold no separator |
| GoStrings.SplitCount | prober/nagios.go:142-145 | there is one piece more than there are separators |
| GoStrings.Cut | prober/nagios.go:162 | strings.SplitN(s, sep, 2): s alone without a separator; otherwise two parts, the first without the separator, with part + sep + part == s |
| GoStrings.CutAt | prober/nagios.go:184 | cutting `a + sep + b` where a has no separator gives exactly [a, b] |
| GoStrings.TrimFunc | prober/nagios.go:138 | strings.TrimFunc: the result is the input without a prefix and a suffix of dropped characters; it is empty exactly when every character is dropped, and otherwise starts and ends with kept characters; a string with kept ends is unchanged |
| GoStrings.TrimFuncWithin | prober/nagios.go:138 | when everything outside s[lo..hi] is dropped and both ends of s[lo..hi] are kept, the trim is exactly s[lo..hi] |
| GoStrings.TrimFuncOf | prober/nagios.go:138 | a dropped prefix, then a middle that is empty or has kept ends, then a dropped suffix: the trim is exactly the middle |
| GoStrings.TrimSpace | prober/nagios.go:138 | strings.TrimSpace: TrimFunc with unicode.IsSpace, the characters with Unicode's White_Space property (IsSpace) |
| GoStrings.ToLower | prober/nagios.go:196 | ASCII lower-casing: same length, no upper-case ASCII letter left, other characters kept |
| GoStrings.IntToDecimal | prober/nagios.go:131 | fmt's %v of an int parses back to that int |
| GoStrings.ParseDecimal | prober/nagios.go:168 | strconv.ParseFloat on a string of digits and dots: the value read is never negative |
| GoStrings.ParseDecimalNat | prober/nagios.go:168 | the decimal digits of n read back as exactly n |
| GoStrings.ParseDecimalFraction | prober/nagios.go:168 | `<whole>.<frac>` reads as whole plus frac's value divided by 10 to the number of digits of frac |
| GoStrings.DecimalParser | prober/nagios.go:166-168 | the float parser used for the worked entries: it gives a value exactly for strings of digits and dots that ParseDecimal accepts, and the value is never negative |
| GoStrings.ParseDecimalSyntax | prober/nagios.go:168 | a digit/dot string parses exactly when it holds at most one dot and at least one digit |
| NagiosArguments.SplitArgument | prober/nagios.go:183-187 | an entry becomes two arguments exactly when it starts with '-' and holds a space; the first has no space and still starts with '-'; joining the parts with a space gives the entry back |
| NagiosArguments.SplitArgumentsAppend | prober/nagios.go:182-188 | splitting a concatenation splits each part on its own, so relative order is kept |
| NagiosArguments.SplitArgumentsLength | prober/nagios.go:181-188 | every entry yields one or two arguments |
| NagiosArguments.SplitArgumentsUnchanged | prober/nagios.go:182-188 | a list with no dash option holding a space passes through unchanged |
| NagiosArguments.MatchEnd | prober/nagios.go:194 | where a match of `\$\S*\$` that starts at the first character ends, if one does |
| NagiosArguments.MatchEndIsLongestToken | prober/nagios.go:194 | MatchEnd is the regex's greedy match: it is a token, no longer token starts there, and None means no token starts there |
| NagiosArguments.Replacement | prober/nagios.go:195-200 | the value of the lower-cased, '$'-trimmed name when it is a key, otherwise the token itself |
| NagiosArguments.TokensIffContainsToken | prober/nagios.go:194-195 | the scan replaces something exactly when the pattern matches somewhere in the argument |
| NagiosArguments.SubstituteEmpty | prober/nagios.go:195-201 | with no placeholders every argument is kept |
| NagiosArguments.SubstituteKeepsUnknown | prober/nagios.go:198-199 | an argument none of whose tokens is named after a key is kept byte for byte, '$'s included (SubstituteEmbeddedToken covers an unknown token beside a known one) |
| NagiosArguments.SubstituteWithoutToken | prober/nagios.go:191-201 | an argument with no `$…$` token is returned unchanged, whatever the map |
| NagiosArguments.WholeToken | prober/nagios.go:194 | a run from '$' to '$' with no space is one match, however many '$'s it holds |
| NagiosArguments.SubstituteWholeToken | prober/nagios.go:195-200 | an argument that is one token is replaced as a whole by its Replacement |
| NagiosArguments.MatchEndBeforeSpace | prober/nagios.go:194 | a match never runs across a white-space character |
| NagiosArguments.IsPatternSpace | prober/nagios.go:194 | RE2's `\s`, the characters the pattern's `\S` excludes: tab, newline, form feed, carriage return and space |
| NagiosArguments.Substitute | prober/nagios.go:193-201 | ReplaceAllStringFunc with the placeholder pattern: scanning from the left, the leftmost match is replaced by its Replacement and the scan resumes after it; other characters are copied |
| NagiosArguments.SubstitutePlainPrefix | prober/nagios.go:194 | text before the first '$' is copied as it is and the scan goes on after it |
| NagiosArguments.MatchEndOfToken | prober/nagios.go:194 | a token followed by text with no '$' before the next white space is matched exactly, whatever follows |
| NagiosArguments.SubstituteTokenThen | prober/nagios.go:194-201 | a token at the start is replaced and the scan resumes right after it |
| NagiosArguments.SubstituteEmbeddedToken | prober/nagios.go:194-201 | a token anywhere in an argument: the '$'-free text before it is kept, the token becomes its Replacement (its value when its name is a key, itself otherwise), and the rest is substituted on its own; so `http://$target_host$:8080` becomes `http://` + host + `:8080` |
| NagiosArguments.ReplacedBesideKept | prober/nagios.go:194-201 | in `x$a$ $b$` the known token is replaced and the unknown one next to it is kept byte for byte |
| NagiosArguments.TokenName | prober/nagios.go:196 | the name of `$name$` is the lower-cased name when the name neither starts nor ends with '$' |
| NagiosArguments.GreedyToken | prober/nagios.go:194-196 | `$a$$b$` is one placeholder named `a$$b`, not two |
| NagiosArguments.PlaceholderLookup | prober/nagios.go:196-197 | an argument that is `$NAME$` is replaced by the value stored under the lower-cased name; inside a longer argument SubstituteEmbeddedToken with TokenName gives the same |
| NagiosArguments.UpperCaseKeyUnused | prober/nagios.go:89 | a key with an upper-case letter is never looked up: removing it changes no argument |
| NagiosArguments.SubstituteIgnoresUnusedKeys | prober/nagios.go:196 | keys that no token is named after can be dropped from the map without effect |
| NagiosArguments.ParseArgumentsLength | prober/nagios.go:179-205 | the argv has between one and two arguments per configured entry |
| NagiosArguments.ParseArgumentsAppend | prober/nagios.go:179-205 | entries become arguments independently and in order |
| NagiosArguments.ParseArgumentsUnchanged | prober/nagios.go:179-205 | a list with nothing to split and no placeholder is passed to the check unchanged |
| NagiosArguments.SplitPass | prober/nagios.go:181-189 | the first loop computes SplitArguments of the list |
| NagiosArguments.SubstitutePass | prober/nagios.go:192-202 | the second loop keeps the length and substitutes each argument in place |
| NagiosArguments.ParseNagiosArguments | prober/nagios.go:179-205 | the two loops compute ParseArguments |
| NagiosOutput.BlankIffTrimmedEmpty | prober/nagios.go:138-140 | a line is skipped exactly when it is made only of white space |
| NagiosOutput.LineLog | prober/nagios.go:142-143 | a log entry never holds a '|', nor a newline when its line has none |
| NagiosOutput.LinePerf | prober/nagios.go:144-146 | a line contributes one perf-data entry per '|' |
| NagiosOutput.LinePerfClean | prober/nagios.go:144-146 | no perf-data entry of a line holds a '|', nor a newline when the line has none |
| NagiosOutput.SplitOutput | prober/nagios.go:135-155 | what splitNagiosOutput returns: the message from the first non-blank line, every trimmed segment after a '|' as perf data, and one log entry per non-blank line |
| NagiosOutput.FlatMapAppend | prober/nagios.go:137-147 | the lines' entries, for a concatenation of lines, are the entries of each part in order |
| NagiosOutput.AppendSegments | prober/nagios.go:144-146 | the inner loop appends every trimmed segment after the first '|', in order |
| NagiosOutput.SplitNagiosOutput | prober/nagios.go:135-155 | the loop computes SplitOutput: message, perf data and log |
| NagiosOutput.NonBlank | prober/nagios.go:138-140 | the non-blank lines, in order |
| NagiosOutput.LogPerLine | prober/nagios.go:143 | the log has one entry per non-blank line, the k-th from the k-th non-blank line |
| NagiosOutput.BlankLinesNoLog | prober/nagios.go:138-140 | blank lines add nothing to the log |
| NagiosOutput.BlankLinesNoPerf | prober/nagios.go:138-140 | blank lines add nothing to the perf data |
| NagiosOutput.MessageFromFirstNonBlankLine | prober/nagios.go:149-152 | the message is the trimmed text before the first '|' of the first non-blank line |
| NagiosOutput.AllBlankOutput | prober/nagios.go:149-154 | when every line is blank the message, the log and the perf data are empty |
| NagiosOutput.LogIsClean | prober/nagios.go:142-152 | neither the message nor a log entry holds a '|' or a newline |
| NagiosOutput.JoinBars | prober/nagios.go:137 | cutting the output into lines keeps every '|' |
| NagiosOutput.PerfPerBar | prober/nagios.go:137-147 | each non-blank line contributes one perf-data entry per '|'; blank lines hold none |
| NagiosOutput.PerfDataCount | prober/nagios.go:135-155 | there are exactly as many perf-data entries as '|'s in the output |
| NagiosOutput.NoBarNoPerfData | prober/nagios.go:135-155 | output without a '|' has no perf data |
| NagiosOutput.PerfIsClean | prober/nagios.go:144-146 | no perf-data entry holds a '|' or a newline |
| NagiosPerfData.StripNonNumeric | prober/nagios.go:166-167 | the `[^0-9.]+` removal: never longer, and only digits and dots remain |
| NagiosPerfData.StripAppend | prober/nagios.go:166-167 | stripping works piece by piece |
| NagiosPerfData.StripKeepsNumeric | prober/nagios.go:166-167 | a digit/dot string is kept as it is |
| NagiosPerfData.StripDropsOthers | prober/nagios.go:166-167 | a string with no digit or dot is removed entirely |
| NagiosPerfData.ValueText | prober/nagios.go:165-167 | the value source is the text before the first ';' (all of it without one), stripped |
| NagiosPerfData.Entry | prober/nagios.go:161-170 | what one space-separated token contributes: its key and value when it holds a '=' and its value text parses, nothing otherwise |
| NagiosPerfData.EntryShape | prober/nagios.go:161-170 | only tokens with '=' contribute; the key is the text before the first '='; the token contributes exactly when the value text after it parses |
| NagiosPerfData.EntryOfMeasurement | prober/nagios.go:161-170 | `key=<number><unit>[;…]` gives the key and the parse of the number alone |
| NagiosPerfData.EntryOfWholeNumber | prober/nagios.go:161-170 | with the decimal parser, `key=<n><unit>[;…]` such as `time=120ms;500;1000` records exactly n under key |
| NagiosPerfData.EntryOfFraction | prober/nagios.go:161-170 | with the decimal parser, `key=<whole>.<frac><unit>[;…]` such as `load=3.2` records whole plus the fraction frac denotes |
| NagiosPerfData.NegativeReadingUnsigned | prober/nagios.go:166-167 | a minus sign is stripped with the unit, so `key=-5` records what `key=5` records |
| NagiosPerfData.EntryKey | prober/nagios.go:162-163 | a recorded key holds no '=' and is followed by '=' in its token |
| NagiosPerfData.Record | prober/nagios.go:168-170 | a contributing token sets its key to its value, overwriting an earlier value; any other token changes nothing |
| NagiosPerfData.RecordAll | prober/nagios.go:160-174 | the tokens recorded one after the other, in order |
| NagiosPerfData.PerfMap | prober/nagios.go:157-177 | what parseNagiosPerfData returns: every segment's space-separated tokens recorded, in order, into an empty map |
| NagiosPerfData.RecordAllAppend | prober/nagios.go:160-174 | recording a concatenation of tokens records the first part, then the second |
| NagiosPerfData.RecordLine | prober/nagios.go:161-173 | the inner loop records the segment's space-separated tokens in order |
| NagiosPerfData.ParseNagiosPerfData | prober/nagios.go:157-177 | the loop computes PerfMap: every segment's tokens recorded in order into an empty map |
| NagiosPerfData.RecordDomain | prober/nagios.go:169 | one token adds its own key, if it contributes one, and no other |
| NagiosPerfData.RecordAllDomain | prober/nagios.go:160-174 | a key is in the map exactly when some token contributes it |
| NagiosPerfData.RecordAllLastWins | prober/nagios.go:169 | a later token with the same key overwrites an earlier one: the key holds the last contributor's value |
| NagiosPerfData.RecordAllUntouched | prober/nagios.go:160-174 | a key no token contributes keeps what the map held |
| NagiosPerfData.SkipsFailedToken | prober/nagios.go:168-170 | a token whose value does not parse is skipped and changes nothing for the others |
| ProxyEnvironment.ProxyVariables | prober/nagios.go:48-57 | getProxyEnvVariables: the six `NAME=value` entries, in the source's order |
| ProxyEnvironment.EnvLookup | prober/nagios.go:119 | the value a command sees for a variable: the last entry that assigns it wins, as with a duplicated name in `Cmd.Env` |
| ProxyEnvironment.AssignmentMatches | prober/nagios.go:50-55 | an entry `NAME=value` assigns exactly NAME and gives it value |
| ProxyEnvironment.EnvLookupAppend | prober/nagios.go:119 | in an appended environment the later entries win |
| ProxyEnvironment.LookupLast | prober/nagios.go:119 | the last entry decides its variable and leaves the others to the earlier entries |
| ProxyEnvironment.AssignmentsLookup | prober/nagios.go:48-57 | assigning one value to a list of names sets exactly those names |
| ProxyEnvironment.ProxyVariablesByName | prober/nagios.go:48-57 | the six entries, in order: the proxy URL under HTTPS_PROXY, HTTP_PROXY, https_proxy and http_proxy, then USE_PROXY=yes and use_proxy=yes |
| ProxyEnvironment.ProxyVariablesLookup | prober/nagios.go:48-57 | the proxy entries set "yes" for the two switches, the URL for the four proxy names, and nothing else |
| ProxyEnvironment.ChildEnvironment | prober/nagios.go:118-120 | without a proxy the environment is left unset; with one it is the parent's entries, unchanged, followed by the six proxy entries |
| ProxyEnvironment.ChildEnvironmentLookup | prober/nagios.go:118-120 | the check sees the proxy URL or "yes" for the proxy variables and the exporter's own value for every other variable |
| NagiosProbe.Status.Code | prober/nagios.go:39-44 | the four results are numbered 0 to 3 |
| NagiosProbe.StatusOfCode | prober/nagios.go:127 | an exit code is a plugin result exactly when it is 0 to 3, and then the result has that number |
| NagiosProbe.StatusCodeRoundTrip | prober/nagios.go:39-44 | a result's number reads back as that result |
| NagiosProbe.ChecksPath | prober/nagios.go:68 | filepath.Join(cwd, "checks", check) for a clean working directory and check name |
| NagiosProbe.ResolveCheckBinary | prober/nagios.go:59-83 | an empty name fails with "no check specified"; a missing absolute path fails with "file does not exist"; an absolute path that exists is used as given; a relative name is taken from the checks directory when it exists there, otherwise from the search path, whose failure is returned; these three failures are the only ones |
| NagiosProbe.ResolveErrorMessages | prober/nagios.go:60-62 | the two fixed error texts, "no check specified" and "file does not exist" |
| NagiosProbe.Placeholders | prober/nagios.go:86-105 | "target" is the target; the keys are "target", the five URL keys when the target parses, and every parameter with a value; a parameter not overridden holds its first value; target_host, target_port and target_scheme are the URL's host, port and scheme; target_path is the path, "/" when empty; target_base is scheme://host |
| NagiosProbe.BuildPlaceholders | prober/nagios.go:86-105 | the loop over the parameters and the assignments that follow compute Placeholders |
| NagiosProbe.CredentialFailureMessageNamesSite | prober/nagios.go:109 | the corrected message tells every site apart |
| NagiosProbe.CredentialFailureMessageAsWrittenLosesSite | prober/nagios.go:107-109 | as written, the message is the same for every site and differs from the one naming the site |
| NagiosProbe.AddCredentials | prober/nagios.go:106-113 | fails exactly when there is a "site" placeholder without credentials, with the message naming the site; otherwise adds testclient_id and testclient_secret and keeps every other key |
| NagiosProbe.UnexpectedExitMessage | prober/nagios.go:131 | the message starts with the fixed prefix and its rest parses back to the exit code |
| NagiosProbe.ClassifyExit | prober/nagios.go:124-132 | the result keeps the exit code exactly for 0 to 3, with the parsed message and perf map; -1 gives Error, "The process timed out" and no perf data; any other code gives Unknown, a message naming the code and no perf data |
| NagiosProbe.RunCheck | prober/nagios.go:85-133 | runNagiosCheck: the placeholders, the credentials for a site, the argv, the proxy environment, the run and the classification of its exit |
| NagiosProbe.RunNagiosCheck | prober/nagios.go:85-133 | the method computes RunCheck |
| NagiosProbe.CredentialFailureStartsNothing | prober/nagios.go:106-110 | when the site's credentials cannot be had, the run ends with Error and the message naming the site, and no command is started |
| NagiosProbe.RunStartsCommand | prober/nagios.go:115-129 | otherwise the command is the resolved binary with the templated arguments (one or two per entry) and the proxy environment, and its exit is classified |
| NagiosProbe.Succeeded | prober/nagios.go:238 | true exactly when the result is 0, or 1 with warnings not treated as failures |
| NagiosProbe.StricterVerdict | prober/nagios.go:238 | treating warnings as failures only turns a success into a failure, and only for Warning |
| NagiosProbe.Probe | prober/nagios.go:207-245 | ProbeNagios: resolve the binary, run the check, publish its status, message and perf data, and give the verdict; a resolution failure publishes Unknown |
| NagiosProbe.ProbeNagios | prober/nagios.go:207-245 | the method computes Probe |
| NagiosProbe.ResolutionFailureFailsProbe | prober/nagios.go:228-243 | any resolution failure (no check, a missing absolute path, or a relative name found neither under checks/ nor on the search path) fails the probe, publishes Unknown (3) under "Error resolving the Nagios check binary", and starts nothing |
| NagiosProbe.ProbeVerdict | prober/nagios.go:228-238 | once resolved, the published value is 0 to 3 and the probe succeeds exactly for 0, or 1 with warnings allowed |
| NagiosProbe.AbnormalExitFailsProbe | prober/nagios.go:124-132 | a timeout or unexpected exit code never makes the probe succeed, and publishes 2 or 3 with no perf data |

## Left out

- Process execution and the deadline (`exec.CommandContext`, `CombinedOutput`, `ProcessState.ExitCode`) are not modelled. The process is a function from the command to its exit code and combined output. The model does not capture the timeout itself, only its observed exit code -1.
- The file system and the search path (`os.Getwd`, `os.Stat`, `exec.LookPath`) are the parameters of `Host`. A failing `os.Getwd` is modelled by an empty working directory, as Go then joins onto "".
- `NagiosProbe.ChecksPath` does not model `filepath.Join`'s cleaning of the joined path. Go resolves `.` and `..` elements, collapses repeated slashes and drops a trailing slash. So for the check `a//b` Go looks at `<cwd>/checks/a/b`, while the model looks at `<cwd>/checks/a//b`.
- `url.Parse` is a parameter that gives the scheme, host, port and path, or nothing on an error.
- `strconv.ParseFloat` is a parameter. `GoStrings.DecimalParser` is an exact instance on digit/dot strings, the only strings the prober passes to it. It gives None elsewhere. Floating-point rounding, range errors and the `inf`/`nan`/hex forms are not modelled.
- Go strings are byte sequences, and the model's strings are sequences of Unicode characters. A plugin's output converted with `string(output)` can hold invalid UTF-8, which the model cannot represent. Such bytes can matter only where the code reads characters: `strings.TrimSpace` and the regexes.
- `GoStrings.ToLower` lower-cases ASCII letters only. Go's `strings.ToLower` also maps other Unicode letters.
- The site accounts service (`siteacc/siteacc.go`: HTTP request, JSON decoding, passphrase decryption) is a parameter that gives a site's credentials or nothing. Its distinct error causes are not modelled.
- `checks/ioplogin` is not part of this model: it is a command-line wrapper around an external login SDK, with no logic of its own.
- Prometheus gauge registration, `MustRegister` panics and go-kit logging are left out. The published gauges are the fields of `ProbeOutcome`.
- Go's map iteration order is left out. `BuildPlaceholders` takes the parameters in any order, and the result does not depend on it.
- `parseNagiosArguments`, `splitNagiosOutput` and `parseNagiosPerfData` each have an inner loop (or a second loop). In the model it is a separate method (`SplitPass`/`SubstitutePass`, `AppendSegments`, `RecordLine`), proved against the same specification function.
- The test `len(tokens) > 0` at prober/nagios.go:165 always holds, since a split always has at least one piece (`GoStrings.Split`). `NagiosPerfData.RecordLine` keeps the test as written. The specification function `NagiosPerfData.Entry` has no branch for it.
- The regex is compiled on every iteration at prober/nagios.go:166 and 194. This costs time only and is not modelled.

## Findings

| source | as written | input that shows it | evidently intended | confidence | as-written member | corrected member |
|---|---|---|---|---|---|---|
| prober/nagios.go:107-109 | `site, err := …` inside the `if` declares a new `site`: the site record returned with the error, which is nil on every error path (siteacc/siteacc.go:44-78). The message therefore prints `<nil>`. | URL parameter `site=CERN` with the credential lookup failing gives "Unable to retrieve test user credentials for site <nil>" | the message names the site whose credentials could not be retrieved ("… for site CERN") | high, not executed | NagiosProbe.CredentialFailureMessageAsWritten (shown by NagiosProbe.CredentialFailureMessageAsWrittenLosesSite) | NagiosProbe.CredentialFailureMessage (NagiosProbe.CredentialFailureMessageNamesSite; used by NagiosProbe.AddCredentials) |
