# KeePassXC OTP integration: a Dafny model of its import and sensor logic

This project models the logic of the `keepassxc_otp` Home Assistant integration that
turns the entries of a KeePassXC password database into OTP records, and then into
sensors showing the current code. The modelled parts are:

- the otpauth URI parser for the Key URI Format (`otpauth://totp/Issuer:account?secret=…`),
  together with the parts of Python's `urlsplit`, `parse_qs`/`parse_qsl` and `int()` it depends on;
- the detection of KeePass field references (`{REF:…}`);
- the choice of an entry's OTP value;
- the simple-key fallback, which turns a bare base32 key into a Key URI with period 30,
  6 digits and SHA1;
- the per-entry extraction with its typed skip reasons;
- the import pass of `validate_input`, which keeps the first record per distinct secret and
  writes an imported/skipped ledger;
- the import report text;
- `_get_person_info`;
- on the sensor side: its own extraction and parser, the loop that fills the coordinator's
  data, the zero-padded code, and the state attributes with the seconds left in the period.

Modules, one per file:

- `Wrappers` (`wrappers.dfy`): `Option` and `Result`.
- `PyStr` (`pystr.dfy`): the Python `str` operations used (`upper`, `lower`, `in`, `find`,
  `split`, `join`, `replace`, `strip`, `lstrip`, `zfill`, `int()`, `str(int)`, `%`).
- `UrlParse` (`urlparse.dfy`): `urlsplit` and `parse_qsl`, plus a query writer.
- `OtpUri` (`otpuri.dfy`): `_parse_otpauth_uri`.
- `KeyUriFormat` (`keyuri.dfy`): the writer side of the Key URI Format. It exists to state a
  round trip for the parser.
- `KeePass` (`keepass.dfy`): the entry record.
- `ConfigFlow` (`config_flow.dfy`): `_has_references`, `_extract_otp_from_entry` and
  `_get_person_info`.
- `ImportPass` (`import_pass.dfy`): the loop of `validate_input`.
- `ImportReport` (`import_report.dfy`): `_format_import_stats`.
- `Sensor` (`sensor.dfy`): the coordinator and the sensor entity.

The loops of the source are methods with loop invariants, each proved against a
specification function over the input read so far:

- the import loop: `ImportPass.ImportEntries` against `ImportFold` and `ValidateResult`;
- the report builder: `ImportReport.FormatImportStats` with `AppendSection`, against
  `ReportLines`;
- the coordinator's loop: `Sensor.LoadOtpEntries` against `Loaded`.

The properties the code promises are then lemmas about those functions.

Modelling choices:

- A missing text field of an entry (`None`) is the empty string. Username, password, URL,
  notes, `otp` and the property values are only tested for truth or searched for `{REF:`,
  which treats `None` and `""` alike. The title is assumed to be a string: the ledger
  stores it as it is and the sensor slugifies it, so a `None` title is not modelled.
- The import pass and the coordinator's loop take the per-entry extraction as a parameter.
  The source's `validate_input` calls `_extract_otp_from_entry`, which is
  `ConfigFlow.ExtractOtpFromEntryAsWritten`; `ConfigFlow.ExtractOtpFromEntry` is the corrected
  extraction of the finding below, and the contracts of the two state that they agree except
  on the simple-key path for a title with `?` or `#`. The coordinator passes
  `Sensor.SensorExtract`. The lemmas about the two loops hold for any extraction.
- Deduplication compares the secrets themselves. The code compares their SHA-256 digests,
  which amounts to the same thing for an injective hash.
- Home Assistant's `slugify`, the undefined `sanitize_path_component`, `pyotp`'s
  `TOTP(...).now()` and `time.time()` are parameters.
- A shown code is `str(code).zfill(digits)`: it is padded to at least `digits` characters,
  and a longer code is shown unchanged.

## Model

| member | source | states |
|---|---|---|
| UrlParse.UrlSplit | custom_components/keepassxc_otp/config_flow.py:235 | `urlparse(uri)` (`urlsplit` for this scheme): the network location has no `/`, `?` or `#`, the path no `?` or `#`, and the query no `#`; which text each part is, `UrlParse.UrlSplitExactly` states |
| UrlParse.UrlSplitExactly | custom_components/keepassxc_otp/config_flow.py:235 | for every URL, once leading control characters and spaces and every tab and line break are removed: the scheme is `SplitScheme`'s; after `//` the network location is the longest prefix without `/`, `?` or `#` and the rest starts with one of them or is empty, and without `//` the network location is empty; the rest is the path, then `?` and the query if there is one, then `#` and the fragment if there is one |
| UrlParse.TailSplitExactly | custom_components/keepassxc_otp/config_flow.py:235 | that description of path, query and fragment leaves a single choice: any parts that make up the text that way are the ones `urlsplit` takes, so the path ends at the first `?` or `#` and the fragment starts after the first `#` |
| UrlParse.UrlSplitIgnoresUnsafe | custom_components/keepassxc_otp/config_flow.py:235 | a URL that starts with a visible character splits exactly like the same URL with its tabs and line breaks removed |
| UrlParse.LStripC0 | custom_components/keepassxc_otp/config_flow.py:235 | `urlsplit` strips from the front exactly the leading run of control characters and spaces |
| UrlParse.RemoveUnsafe | custom_components/keepassxc_otp/config_flow.py:235 | `urlsplit` removes every tab, CR and LF: the result holds exactly the other characters of the URL, and a URL without them is unchanged |
| UrlParse.RemoveUnsafeAppend | custom_components/keepassxc_otp/config_flow.py:235 | the removal keeps the order of what it keeps: removing from `a + b` is removing from `a`, then from `b` |
| UrlParse.SplitScheme | custom_components/keepassxc_otp/config_flow.py:235-236 | a scheme is found exactly when the text before some `:` is an ASCII letter followed only by letters, digits, `+`, `-` and `.`; that `:` is then the first one, the scheme is the text before it lower-cased and the rest is what follows it; otherwise there is no scheme and the URL is left whole |
| UrlParse.SplitNetloc | custom_components/keepassxc_otp/config_flow.py:240 | the network location is the longest prefix without `/`, `?` or `#`, and the remainder begins with one of them |
| UrlParse.ParseQsl | custom_components/keepassxc_otp/config_flow.py:254 | `parse_qs`/`parse_qsl` without blank values: no parsed pair has an empty value |
| UrlParse.QueryFieldOf | custom_components/keepassxc_otp/config_flow.py:254 | a field `name=value` is split at its first `=`, with `+` read as a space; an empty value is dropped |
| UrlParse.ParseQslCons | custom_components/keepassxc_otp/config_flow.py:254 | the query is read field by field, one `&`-separated field at a time, in order |
| UrlParse.FirstValueSpec | custom_components/keepassxc_otp/config_flow.py:255-268 | `params.get(name, [d])[0]`: absent exactly when no pair has the name, else the value of the first pair with that name |
| UrlParse.FirstValue | custom_components/keepassxc_otp/config_flow.py:255-268 | `params.get(name, [d])[0]` as a lookup of the first pair with the name; its meaning is stated by `UrlParse.FirstValueSpec` |
| UrlParse.FirstValueWins | custom_components/keepassxc_otp/config_flow.py:255-268 | values appended after a name's first occurrence never change what is read for it |
| UrlParse.FirstValueAt | custom_components/keepassxc_otp/config_flow.py:255-268 | a pair that has the first occurrence of its name supplies the value read for that name |
| UrlParse.ParseQslEncodeQuery | custom_components/keepassxc_otp/config_flow.py:254 | writing pairs as `name=value&…` and parsing them back gives the same pairs, for names without `=` and names and values without `&`, `+` or `%` and with non-empty values |
| UrlParse.EncodeQueryAvoids | custom_components/keepassxc_otp/config_flow.py:178 | a written query contains a character other than `=` and `&` only if one of its names or values does |
| PyStr.ParseIntNatToString | custom_components/keepassxc_otp/config_flow.py:262-263 | `int(str(n)) == n`: the decimal text of a number reads back as that number |
| PyStr.DecimalValueOfNatToString | custom_components/keepassxc_otp/config_flow.py:262-263 | the digits of `str(n)` have the value `n` |
| PyStr.ParseInt | custom_components/keepassxc_otp/config_flow.py:262-263 | `int(s)` refuses blank text, a negative result comes from text starting with `-` once stripped, and text that starts or ends with one of the separators U+001C to U+001F is refused, since `int()` does not strip them |
| PyStr.StripIntSpace | custom_components/keepassxc_otp/config_flow.py:262-263 | the whitespace `int()` skips, which is `isspace()` without U+001C to U+001F, is gone from both ends |
| PyStr.Contains | custom_components/keepassxc_otp/config_flow.py:77 | `sub in s` holds exactly when `sub` occurs at some index of `s` |
| PyStr.SplitOnce | custom_components/keepassxc_otp/config_flow.py:251 | `s.split(c, 1)` when `c in s`: the part before the first `c` and the rest, which put together with `c` give `s` back |
| PyStr.JoinSplitAll | custom_components/keepassxc_otp/config_flow.py:254 | splitting at a character and joining with it gives the text back |
| PyStr.LStripChar | custom_components/keepassxc_otp/config_flow.py:246 | `s.lstrip(c)` removes exactly the leading run of `c` |
| PyStr.LStripSpace | custom_components/keepassxc_otp/config_flow.py:162-164 | the left half of `s.strip()`: removes exactly the leading run of whitespace |
| PyStr.RStripSpace | custom_components/keepassxc_otp/config_flow.py:162-164 | the right half of `s.strip()`: removes exactly the trailing run of whitespace |
| PyStr.Strip | custom_components/keepassxc_otp/config_flow.py:162-164 | `s.strip()` is no longer than `s` and neither starts nor ends with whitespace |
| PyStr.StripExactly | custom_components/keepassxc_otp/config_flow.py:162-164 | `s.strip()` is the slice of `s` between its leading and its trailing run of whitespace |
| PyStr.StripNoSpace | custom_components/keepassxc_otp/config_flow.py:162-164 | text without whitespace is left as it is by `strip()` |
| PyStr.ZFill | custom_components/keepassxc_otp/sensor.py:236 | `zfill(width)` gives `max(len, width)` characters |
| PyStr.ZFillShape | custom_components/keepassxc_otp/sensor.py:236 | `zfill(width)` gives `max(len, width)` characters; unsigned text keeps its characters at the end, preceded only by zeros |
| PyStr.FloorMod | custom_components/keepassxc_otp/sensor.py:249 | Python's `%`: the remainder lies in `0..b-1` for a positive divisor and in `b+1..0` for a negative one |
| PyStr.Upper | custom_components/keepassxc_otp/config_flow.py:77 | `str.upper()` leaves no lower-case ASCII letter: each one becomes its capital and every other character stays, at the same position |
| PyStr.Lower | custom_components/keepassxc_otp/config_flow.py:130 | `str.lower()` leaves no ASCII capital: each one becomes its lower-case letter and every other character stays, at the same position |
| PyStr.CaseMappingIdempotent | custom_components/keepassxc_otp/config_flow.py:77 | upper-casing twice is upper-casing once, lower-casing twice is lower-casing once, and lower-casing ignores an earlier upper-casing |
| OtpUri.SplitLabel | custom_components/keepassxc_otp/config_flow.py:246-251 | without `:` there is no issuer and the account is the whole label; otherwise the issuer is the colon-free text before the first `:`, and issuer, `:` and account make up the label |
| OtpUri.ParseOtpauthUri | custom_components/keepassxc_otp/config_flow.py:232-281 | an accepted URI has a non-empty secret and type `totp` or `hotp` |
| OtpUri.ParseRejects | custom_components/keepassxc_otp/config_flow.py:236-263 | the parser rejects a URI exactly when the scheme is not `otpauth`, the type is neither `totp` nor `hotp`, `secret` is missing, or the period or digit count (given or defaulted) is not an integer |
| OtpUri.FromPartsRejects | custom_components/keepassxc_otp/config_flow.py:246-263 | once scheme and type are accepted, the parts are rejected exactly for a missing or empty secret, or a period or digit count `int()` refuses |
| OtpUri.ParseFields | custom_components/keepassxc_otp/config_flow.py:246-278 | an accepted URI yields: the first `secret`; the label's account; the `issuer` parameter when present, else the label's issuer; period 30 and 6 digits when absent and otherwise what `int()` reads from the first value; the first `algorithm`, default `SHA1`; the type from the network location |
| OtpUri.FromPartsFields | custom_components/keepassxc_otp/config_flow.py:246-278 | the same fields, with the period and digit count read by `int()` from a given value, stated for a given type, label and parameter list |
| OtpUri.DefaultsAsIntegers | custom_components/keepassxc_otp/config_flow.py:262-263 | the textual defaults `"30"` and `"6"` read as 30 and 6 |
| OtpUri.RepeatedParameterIgnored | custom_components/keepassxc_otp/config_flow.py:255-268 | repeating a parameter later in the query does not change the result |
| OtpUri.UrlSplitComposed | custom_components/keepassxc_otp/config_flow.py:235-254 | for `otpauth://TYPE/LABEL?QUERY` with a label free of `?` and `#` and a query free of `#`, urlsplit yields exactly those parts |
| OtpUri.ParseComposed | custom_components/keepassxc_otp/config_flow.py:232-281 | parsing `otpauth://TYPE/LABEL?QUERY` is reading the label and the parsed query |
| OtpUri.FragmentSwallowsQuery | custom_components/keepassxc_otp/config_flow.py:235 | with a `#` and no `?` in the label, the query after it goes to the fragment and the query read is empty |
| OtpUri.FragmentInLabelRejected | custom_components/keepassxc_otp/config_flow.py:235-259 | such a URI has no secret and is rejected |
| KeyUriFormat.KeyUriRoundTrip | custom_components/keepassxc_otp/config_flow.py:232-281 | the parser reads back exactly the parameters a Key URI was written from, for parameters that need no quoting |
| KeyUriFormat.KeyUriFromParts | custom_components/keepassxc_otp/config_flow.py:246-278 | the label and fields of a Key URI give back its parameters |
| KeyUriFormat.KeyUriLookups | custom_components/keepassxc_otp/config_flow.py:255-268 | in a Key URI query, each of the parameters `secret`, `period`, `digits`, `algorithm` and `issuer` reads back as the value written |
| KeyUriFormat.KeyUriLabelSplits | custom_components/keepassxc_otp/config_flow.py:246-251 | a Key URI label splits back into the issuer and account it was written from |
| KeyUriFormat.KeyUriQuerySafe | custom_components/keepassxc_otp/config_flow.py:235-254 | the query of an encodable Key URI has no tab, line break or `#`, and `parse_qsl` reads it back as its fields |
| ConfigFlow.HasReferences | custom_components/keepassxc_otp/config_flow.py:70-106 | `_has_references`: when it is false, no custom property value is a reference |
| ConfigFlow.AnyPropertyIsReference | custom_components/keepassxc_otp/config_flow.py:100-104 | the loop over custom property values finds a reference exactly when some value contains one |
| ConfigFlow.HasReferencesExactly | custom_components/keepassxc_otp/config_flow.py:70-106 | an entry has references exactly when one of title, username, password, URL, notes or a custom property value contains `{REF:` after upper-casing |
| ConfigFlow.AnyCaseIsReference | custom_components/keepassxc_otp/config_flow.py:77 | since the text is upper-cased first, `{ref:` in any mix of cases counts as a reference |
| ConfigFlow.OtpPropertyValueFirst | custom_components/keepassxc_otp/config_flow.py:128-139 | the loop yields the value of the first property whose lower-cased name is `otp`, `totp` or `otpauth` and whose value is not a reference, or nothing when no property qualifies |
| ConfigFlow.OtpPropertyValue | custom_components/keepassxc_otp/config_flow.py:128-139 | the property loop never yields a reference, and a non-empty value comes from a property with an OTP name that is not a reference |
| ConfigFlow.OtpValue | custom_components/keepassxc_otp/config_flow.py:126-147 | the OTP value is never a reference; a non-empty one is the `otp` field or the value of a qualifying property |
| ConfigFlow.OtpValueFromProperty | custom_components/keepassxc_otp/config_flow.py:128-147 | a first qualifying property with a non-empty value supplies the OTP value |
| ConfigFlow.OtpValueFromOtpField | custom_components/keepassxc_otp/config_flow.py:141-147 | without a qualifying property, the `otp` field is used unless it is empty or a reference |
| ConfigFlow.SpaceEnd | custom_components/keepassxc_otp/config_flow.py:158 | the `\s*` run: every character up to the returned index is whitespace and the next one is not |
| ConfigFlow.Base32RunEnd | custom_components/keepassxc_otp/config_flow.py:158 | the `[A-Z2-7]+` run under `IGNORECASE`: maximal |
| ConfigFlow.UpperRunEnd | custom_components/keepassxc_otp/config_flow.py:162 | the case-sensitive `[A-Z2-7]+` run: maximal |
| ConfigFlow.KeyMatchAt | custom_components/keepassxc_otp/config_flow.py:158 | a match of `key\s*=\s*([A-Z2-7]+)` at an index yields a non-empty group of base32 characters in any case; when it matches and what it captures, `ConfigFlow.KeyMatchExactly` states |
| ConfigFlow.KeyMatchExactly | custom_components/keepassxc_otp/config_flow.py:158 | the pattern matches at `i` exactly when the text there is `key` in any case, whitespace, `=`, whitespace and a non-empty run of base32 characters in any case; the group is that run, taken as long as it goes |
| ConfigFlow.KeySearchFrom | custom_components/keepassxc_otp/config_flow.py:158 | `re.search` yields a non-empty group of base32 characters |
| ConfigFlow.KeySearchNone | custom_components/keepassxc_otp/config_flow.py:158-160 | the search finds nothing exactly when the pattern matches at no index |
| ConfigFlow.KeySearchLeftmost | custom_components/keepassxc_otp/config_flow.py:158-161 | the search returns the match at the leftmost matching index |
| ConfigFlow.PlainBase32Exactly | custom_components/keepassxc_otp/config_flow.py:162 | `^[A-Z2-7]+=*$` holds exactly for one or more base32 characters followed only by `=` |
| ConfigFlow.AllBase32IsPlain | custom_components/keepassxc_otp/config_flow.py:162 | every non-empty base32 string matches the whole-string pattern |
| ConfigFlow.PlainBase32Upper | custom_components/keepassxc_otp/config_flow.py:164 | upper-casing leaves a string matching the pattern unchanged |
| ConfigFlow.UpperGroupIsPlain | custom_components/keepassxc_otp/config_flow.py:161 | the upper-cased `key=` group matches the whole-string pattern |
| ConfigFlow.SimpleKeySecret | custom_components/keepassxc_otp/config_flow.py:155-173 | the only errors are `simple_key_not_supported` and `no_secret_found`; an extracted secret has at least 16 characters and is upper-case base32 with optional `=` padding |
| ConfigFlow.SimpleKeySecretExactly | custom_components/keepassxc_otp/config_flow.py:155-173 | `simple_key_not_supported` exactly when there is no `key = ...` match and the stripped value is not plain base32; `no_secret_found` exactly when the upper-cased candidate has fewer than 16 characters; otherwise the secret is the upper-cased group of the leftmost match, or the upper-cased stripped value |
| ConfigFlow.PlainBase32QuerySafe | custom_components/keepassxc_otp/config_flow.py:178 | such a secret can be put into the query unquoted |
| ConfigFlow.SanitizedAccountAsWritten | custom_components/keepassxc_otp/config_flow.py:177 | the account is the title with each `:` and `/` replaced by `_`, position by position |
| ConfigFlow.SanitizedAccount | custom_components/keepassxc_otp/config_flow.py:177 | the corrected account: `?` and `#` are replaced as well |
| ConfigFlow.ExtractWithAccount | custom_components/keepassxc_otp/config_flow.py:109-203 | a found record has a non-empty secret |
| ConfigFlow.ExtractOtpFromEntryAsWritten | custom_components/keepassxc_otp/config_flow.py:109-203 | `_extract_otp_from_entry` as written: a found record has a non-empty secret, and for a title without `?` and `#` the result is that of the corrected extraction |
| ConfigFlow.ExtractOtpFromEntry | custom_components/keepassxc_otp/config_flow.py:109-203 | the corrected extraction gives the source's result for an entry with references, without an OTP value, with an otpauth value, or with no usable simple key |
| ConfigFlow.ReferencesFirst | custom_components/keepassxc_otp/config_flow.py:118-123 | the result is `contains_field_references` exactly when the entry has references, before any OTP value is looked at |
| ConfigFlow.NoOtpExactly | custom_components/keepassxc_otp/config_flow.py:146-147 | there is neither record nor error exactly when the entry has no references and no OTP value |
| ConfigFlow.UriValueParsed | custom_components/keepassxc_otp/config_flow.py:181-203 | an `otpauth://` value is parsed as it is: `invalid_uri_format` when the parser rejects it, else the parser's record with the entry's non-empty URL and username |
| ConfigFlow.SimpleKeyRejected | custom_components/keepassxc_otp/config_flow.py:150-173 | a value that is not a URI and not a usable simple key is skipped with the simple key's reason |
| ConfigFlow.ExtractSimpleKey | custom_components/keepassxc_otp/config_flow.py:175-183 | a usable simple key is parsed from its synthesized URI |
| ConfigFlow.SimpleKeyUriIsKeyUri | custom_components/keepassxc_otp/config_flow.py:178 | the synthesized URI is the Key URI of a TOTP key with no issuer, period 30, 6 digits and SHA1 |
| ConfigFlow.SimpleKeyUriParses | custom_components/keepassxc_otp/config_flow.py:178-181 | that URI parses to exactly those parameters when the account is label-safe |
| ConfigFlow.SanitizedAccountLabel | custom_components/keepassxc_otp/config_flow.py:177 | for every title, the corrected account without its tabs and line breaks is label-safe: no `:`, `?`, `#`, and no leading `/`; a title without them keeps its sanitized form |
| ConfigFlow.SimpleKeyFound | custom_components/keepassxc_otp/config_flow.py:150-203 | with the corrected account, a usable simple key becomes a TOTP record for every title: the upper-cased secret, no issuer, the sanitized title with any tab or line break removed (as `urlsplit` removes them), 30 s, 6 digits and SHA1 |
| ConfigFlow.SimpleKeyUriParsesCleaned | custom_components/keepassxc_otp/config_flow.py:178-181 | the synthesized URI parses to the TOTP defaults with the account stripped of tabs and line breaks, when that account is label-safe |
| ConfigFlow.SimpleKeyUriUnsafeRemoved | custom_components/keepassxc_otp/config_flow.py:178 | removing tabs and line breaks from the synthesized URI removes them from its account and nowhere else |
| ConfigFlow.SimpleKeyQueryClean | custom_components/keepassxc_otp/config_flow.py:178 | the synthesized query has no tab or line break |
| ConfigFlow.AsWrittenAccountChars | custom_components/keepassxc_otp/config_flow.py:177 | the as-written account keeps a `#` of the title |
| ConfigFlow.AsWrittenFragmentInTitle | custom_components/keepassxc_otp/config_flow.py:177-183 | as written, a title with `#`, no `?` and no tab or line break makes a usable simple key `invalid_uri_format` |
| ConfigFlow.GetPersonInfo | custom_components/keepassxc_otp/config_flow.py:206-229 | `ValueError` exactly when the entity ID has no `.`; otherwise the sanitized friendly name (or state name) |
| ConfigFlow.PersonIdAfterDomain | custom_components/keepassxc_otp/config_flow.py:223-227 | for `domain.id` with a dot-free domain, the person ID is `id` |
| ImportPass.ReasonText | custom_components/keepassxc_otp/config_flow.py:405-417 | each extraction error maps to its own text, never `Duplicate` nor `Unknown error` |
| ImportPass.Step | custom_components/keepassxc_otp/config_flow.py:401-453 | one iteration of the loop: an error adds its reason, a seen secret adds `Duplicate`, a new one is stored under the entry's UUID and its name imported |
| ImportPass.StepAppends | custom_components/keepassxc_otp/config_flow.py:401-453 | an iteration only appends: earlier lines, seen secrets and stored UUIDs stay, at most one line is added, and an entry without OTP data changes nothing |
| ImportPass.StepKeepsOtherKeys | custom_components/keepassxc_otp/config_flow.py:437-438 | an iteration changes the stored record under its own entry's UUID only |
| ImportPass.ImportFold | custom_components/keepassxc_otp/config_flow.py:391-453 | the ledger after a prefix of the entries, one `Step` per entry; see `ImportPass.FoldLines` |
| ImportPass.FoldLines | custom_components/keepassxc_otp/config_flow.py:391-453 | each imported name added one new secret to the seen set, and each entry added at most one line |
| ImportPass.ValidateResult | custom_components/keepassxc_otp/config_flow.py:395-472 | the only error is `no_otp_entries`; success stores something and reports `total_entries` as the number of entries |
| ImportPass.ImportEntries | custom_components/keepassxc_otp/config_flow.py:391-472 | the loop's dict, set and lists equal the ledger `ImportFold` of all entries; `no_otp_entries` when nothing was stored |
| ImportPass.CountWithOtp | custom_components/keepassxc_otp/config_flow.py:401-459 | the entries with OTP data are at most all entries |
| ImportPass.LedgerAccounting | custom_components/keepassxc_otp/config_flow.py:401-459 | each entry with OTP data adds exactly one line to exactly one list, so `len(imported) + len(skipped)` counts them and is at most `total_entries` |
| ImportPass.FoundSecretsExactly | custom_components/keepassxc_otp/config_flow.py:419-437 | the found secrets are exactly the secrets of entries that yielded a record |
| ImportPass.SeenAndKept | custom_components/keepassxc_otp/config_flow.py:419-448 | the seen set is exactly the secrets found so far, and stored records have pairwise distinct secrets |
| ImportPass.KeptSecretsDistinct | custom_components/keepassxc_otp/config_flow.py:419-448 | two stored records never share a secret |
| ImportPass.DuplicateExactly | custom_components/keepassxc_otp/config_flow.py:419-453 | an entry with a record is skipped as `Duplicate` exactly when an earlier entry had the same secret, and imported and stored under its UUID otherwise |
| ImportPass.KeysAreUuids | custom_components/keepassxc_otp/config_flow.py:437-438 | every stored key is the UUID of an entry read |
| ImportPass.ImportedCountsRecords | custom_components/keepassxc_otp/config_flow.py:438-453 | with unique UUIDs, `len(imported)` equals the number of stored records |
| ImportPass.RecordKept | custom_components/keepassxc_otp/config_flow.py:437-448 | with unique UUIDs a stored record is never overwritten by later entries |
| ImportPass.FirstOccurrenceKept | custom_components/keepassxc_otp/config_flow.py:419-448 | with unique UUIDs, the first entry with a given secret is the one whose record is returned, under its UUID |
| ImportPass.NoOtpEntriesExactly | custom_components/keepassxc_otp/config_flow.py:470-472 | the pass fails with `no_otp_entries` exactly when no entry yields a record |
| ImportPass.NonEmptyOnceFound | custom_components/keepassxc_otp/config_flow.py:425-448 | once an entry with a record has been read, something is stored |
| ImportPass.NothingStored | custom_components/keepassxc_otp/config_flow.py:401-448 | without any record found, nothing is stored |
| ImportReport.Section | custom_components/keepassxc_otp/config_flow.py:515-530 | a section is empty exactly when its list is, and has at most 12 lines: a header, 10 items and the "more" line |
| ImportReport.ReportLines | custom_components/keepassxc_otp/config_flow.py:513-537 | the report always ends with the total line |
| ImportReport.AppendSection | custom_components/keepassxc_otp/config_flow.py:515-530 | one block appends exactly its section to the lines so far |
| ImportReport.FormatImportStats | custom_components/keepassxc_otp/config_flow.py:511-537 | the lines are `ReportLines(stats)` and the text is them joined with `"\n"` |
| ImportReport.SectionShape | custom_components/keepassxc_otp/config_flow.py:515-530 | a section is empty exactly when its list is; otherwise it has a header, the first `min(n, 10)` items in order, and the `... and n-10 more` line exactly when `n > 10` |
| ImportReport.ReportSections | custom_components/keepassxc_otp/config_flow.py:513-537 | imported section, then skipped section, then the total line; the report starts with the imported header exactly when something was imported |
| ImportReport.HeaderNotOtherLine | custom_components/keepassxc_otp/config_flow.py:524-535 | with nothing imported, the first line is not an imported header |
| Sensor.SensorParseOtpauthUri | custom_components/keepassxc_otp/sensor.py:122-172 | an accepted URI gives a record with the entry name, a non-empty secret and type `totp` or `hotp` |
| Sensor.SensorParserAgrees | custom_components/keepassxc_otp/sensor.py:122-172 | the sensor's parser accepts exactly the URIs the configuration flow's accepts, with the same fields plus the entry name |
| Sensor.SensorExtract | custom_components/keepassxc_otp/sensor.py:96-120 | a sensor record comes only from a value starting with `otpauth://` |
| Sensor.SensorPropertyValue | custom_components/keepassxc_otp/sensor.py:100-105 | a non-empty value comes from a property with an OTP name, reference or not |
| Sensor.SensorOtpValue | custom_components/keepassxc_otp/sensor.py:100-111 | the value is empty exactly when the property loop and the `otp` field give nothing; a value other than the `otp` field comes from a property with an OTP name |
| Sensor.NoSimpleKeyOnSensor | custom_components/keepassxc_otp/sensor.py:114-118 | any other value, a bare base32 key among them, yields no record |
| Sensor.PropertyLoopsAgree | custom_components/keepassxc_otp/sensor.py:100-105 | without reference values the sensor's property loop picks what the configuration flow's picks |
| Sensor.SensorMatchesImport | custom_components/keepassxc_otp/sensor.py:96-120 | for an entry without references and with an `otpauth://` value, the sensor yields a record exactly when the import does, with the same fields |
| Sensor.Loaded | custom_components/keepassxc_otp/sensor.py:80-90 | every record is stored under its own `entry_uuid` |
| Sensor.LoadOtpEntries | custom_components/keepassxc_otp/sensor.py:80-94 | the loop's dict equals `Loaded` over all entries |
| Sensor.LoadedKeys | custom_components/keepassxc_otp/sensor.py:83-90 | a key is present exactly when some entry with that UUID yields a record; entries yielding nothing are omitted |
| Sensor.LastWriterWins | custom_components/keepassxc_otp/sensor.py:86-90 | the record under a key has that key as `entry_uuid`, the slugified title as suffix, and comes from the last entry with that UUID yielding a record |
| Sensor.NativeValue | custom_components/keepassxc_otp/sensor.py:219-239 | a code is shown exactly when the UUID is in the data and computing the code does not raise |
| Sensor.NativeValuePadded | custom_components/keepassxc_otp/sensor.py:236 | a digit code is shown with at least `digits` characters: zeros, then the code |
| Sensor.TimeRemaining | custom_components/keepassxc_otp/sensor.py:248-249 | the time remaining lies in `1..period` for a positive period and in `period..-1` for a negative one |
| Sensor.TimeRemainingBounds | custom_components/keepassxc_otp/sensor.py:248-249 | for a positive period, `now` plus the time remaining is the next multiple of the period after `now` |
| Sensor.ExtraStateAttributes | custom_components/keepassxc_otp/sensor.py:241-263 | `{}` when the UUID is absent; otherwise it raises exactly when the period is 0 |
| Sensor.AttributesExactly | custom_components/keepassxc_otp/sensor.py:248-263 | the attributes always hold the entry name, the time remaining and the period; `issuer` and `account` appear exactly when not empty; no other keys |

## Left out

- Opening and decrypting the database (`PyKeePass`, `CredentialsError`), reading and writing files, temporary files, `chmod`, secure deletion and the `finally` block are outside the model: they are I/O and a foreign library.
- The path-traversal checks are not modelled. They depend on `os.path` semantics.
- Home Assistant plumbing is not modelled: the config-flow steps, schemas, the error-code mapping, the coordinator's polling and `UpdateFailed`, entity construction, `async_setup_entry`, `__init__.py` and `const.py`.
- `pyotp.TOTP(...).now()` is a parameter. Generating the code (HMAC, RFC 6238) is not modelled.
- `time.time()` is a parameter `now` that is already an integer.
- `slugify` and the undefined `sanitize_path_component` are parameters.
- `hashlib.sha256` is not modelled. Deduplication compares the secrets, which is the same for an injective hash.
- Percent-decoding in `parse_qs` is not modelled. A `%XX` sequence stays as it is; `+` is read as a space.
- Case mapping covers ASCII letters only. Python's Unicode `upper()`/`lower()`, and `IGNORECASE` matches such as the Kelvin sign matching `k`, are not modelled.
- `urlsplit`'s `ValueError` cases (bracketed IPv6 hosts, NFKC checks on the network location) are not modelled. Such a network location is never `totp` or `hotp`, so the parser returns None either way.
- A `None` entry title is not modelled because titles are strings. With a `None` title the ledger would store `None` and the report would print it as `None`, the sensor would slugify it, and the simple-key branch would raise on `.replace`.
- The `Unknown error` reason is not modelled as a result: every error the extraction returns has its own text (`ImportPass.ReasonText`).
- The import pass and the coordinator's loop take the extraction as a parameter instead of calling it by name. Their lemmas hold for every extraction.
- Concrete URIs are not written out. A URI of the form `otpauth://TYPE/LABEL?QUERY`, such as the `otpauth://totp/Example:alice?secret=…&issuer=Example` example without an `algorithm=` field, is covered by `OtpUri.ParseComposed` with `OtpUri.FromPartsFields`; `KeyUriFormat.KeyUriRoundTrip` covers the URIs that carry every field.
- KeyUriFormat.KeyUriRoundTrip: stated only for parameters the writer puts in the URI without quoting, because quoting and percent-decoding are not modelled. The type is `totp` or `hotp`. The period and digit count are non-negative. The secret, the algorithm and an issuer are non-empty and have no `&`, `+`, `%`, `#`, tab or line break. The account and an issuer have no `?`, `#`, tab or line break. An issuer has no `:` and does not start with `/`. Without an issuer, the account has no `:` and does not start with `/`.
- PyStr.ParseInt: reads ASCII digits only. Python's `int()` also accepts other Unicode decimal digits (full-width `３０` reads as 30), which the model refuses.
- PyStr.ParseInt: has no limit on the number of digits. Python's `int()` raises `ValueError` above 4300 digits (`sys.set_int_max_str_digits`), which the model accepts.
- The report lines of `_format_import_stats` appear mis-encoded in the source file (`âœ…`, `â`, U+00AD, `ï¸` and `ðŸ“Š`: the UTF-8 bytes of the emoji read as Windows-1252 characters, with the bytes that code page lacks dropped). The model uses the emoji those bytes encode: U+2705, U+23ED U+FE0F and U+1F4CA.
- Sensor.NativeValuePadded: the shape is stated for codes made of digits. A signed code would be padded after its sign, which `PyStr.ZFill` models but no lemma states.
- PyStr.FloorMod: states the range of the remainder only, not that `a - r` is a multiple of `b`; for a positive period that fact is part of `Sensor.TimeRemainingBounds`.
- Sensor.TimeRemainingBounds: the next-multiple equation is stated for a positive period. For a negative period `Sensor.TimeRemaining` states only the range `period..-1`, and `ExtraStateAttributes` returns None for period 0.

## Findings

| source | as written | input that shows it | evidently intended | confidence | as-written member | corrected member |
|---|---|---|---|---|---|---|
| custom_components/keepassxc_otp/config_flow.py:177-178 | the account name replaces only `:` and `/` before going into `otpauth://totp/{account_name}?secret=…` | an entry titled `Bank #2` whose OTP value is `JBSWY3DPEHPK3PXP`: the `#` starts the URI's fragment, the secret lands in the fragment, and the entry is skipped as `invalid_uri_format` | a usable simple key becomes a TOTP record whatever the title; replacing `?` and `#` as well keeps the whole account in the label, less any tab or line break `urlsplit` removes | not executed | ConfigFlow.AsWrittenFragmentInTitle | ConfigFlow.SimpleKeyFound |
