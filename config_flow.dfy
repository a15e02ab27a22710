/**
 * The per-entry logic of the configuration flow: detecting KeePass field
 * references, choosing where an entry's OTP value comes from, the
 * simple-key fallback that turns a bare base32 key into a Key URI, and the
 * extraction that combines them with the otpauth parser.
 */
module ConfigFlow {
  import opened Wrappers
  import opened PyStr
  import opened UrlParse
  import opened OtpUri
  import opened KeyUriFormat
  import opened KeePass

  // ----- field references -----

  /** `"{REF:" in str(value).upper()`: the value holds a KeePass field reference such as `{REF:P@I:...}`. */
  predicate IsReference(s: string) {
    Contains(Upper(s), "{REF:")
  }

  /** Because the test upper-cases first, `{ref:` and every other mix of cases counts as a reference. */
  lemma AnyCaseIsReference(s: string, i: nat)
    requires i + 5 <= |s| && Upper(s[i..i + 5]) == "{REF:"
    ensures IsReference(s)
  {
    UpperSlice(s, i, i + 5);
    assert OccursAt(Upper(s), "{REF:", i);
  }

  /** The early-exit loop over the custom property values. */
  function AnyPropertyIsReference(props: seq<(string, string)>): (b: bool)
    ensures b <==> exists i :: 0 <= i < |props| && IsReference(props[i].1)
  {
    if |props| == 0 then false
    else if IsReference(props[0].1) then true
    else
      var rest := AnyPropertyIsReference(props[1..]);
      assert rest <==> exists i :: 0 <= i < |props| && IsReference(props[i].1) by {
        forall i | 0 < i < |props| ensures props[i] == props[1..][i - 1] { }
      }
      rest
  }

  /**
   * `_has_references(entry)`. The `otp` field is not among the fields it looks
   * at; an entry without references has no reference in any property value.
   */
  predicate HasReferences(e: Entry)
    ensures !HasReferences(e) ==> forall k :: 0 <= k < |e.customProperties| ==> !IsReference(e.customProperties[k].1)
  {
    || IsReference(e.title)
    || IsReference(e.username)
    || IsReference(e.password)
    || IsReference(e.url)
    || IsReference(e.notes)
    || AnyPropertyIsReference(e.customProperties)
  }

  /** The values of the custom properties, in order. */
  function PropertyValues(props: seq<(string, string)>): (vs: seq<string>)
    ensures |vs| == |props| && forall i :: 0 <= i < |props| ==> vs[i] == props[i].1
  {
    seq(|props|, i requires 0 <= i < |props| => props[i].1)
  }

  /** The texts `_has_references` inspects: title, username, password, URL, notes and every custom property value. */
  function CheckedFields(e: Entry): seq<string> {
    [e.title, e.username, e.password, e.url, e.notes] + PropertyValues(e.customProperties)
  }

  /** An entry has references exactly when one of the inspected texts contains `{REF:` after upper-casing. */
  lemma HasReferencesExactly(e: Entry)
    ensures HasReferences(e) <==> exists i :: 0 <= i < |CheckedFields(e)| && IsReference(CheckedFields(e)[i])
  {
    var fs := CheckedFields(e);
    var props := e.customProperties;
    assert fs[0] == e.title && fs[1] == e.username && fs[2] == e.password && fs[3] == e.url && fs[4] == e.notes;
    forall i | 5 <= i < |fs| ensures fs[i] == props[i - 5].1 {
      assert fs[i] == PropertyValues(props)[i - 5];
    }
    if AnyPropertyIsReference(props) {
      var k :| 0 <= k < |props| && IsReference(props[k].1);
      assert IsReference(fs[k + 5]);
    }
  }

  // ----- where the OTP value comes from -----

  /** A custom property named `otp`, `totp` or `otpauth` in any mix of cases. */
  predicate IsOtpPropertyName(name: string) {
    var l := Lower(name);
    l == "otp" || l == "totp" || l == "otpauth"
  }

  /** A property the custom-property loop stops at: an OTP name and a value that is not a reference. */
  predicate Selectable(p: (string, string)) {
    IsOtpPropertyName(p.0) && !IsReference(p.1)
  }

  /**
   * The custom-property loop of `_extract_otp_from_entry`: a reference value is
   * skipped (`continue`), and the first other OTP-named property ends the loop
   * with its value, even an empty one. `""` when the loop ends without one.
   */
  function OtpPropertyValue(props: seq<(string, string)>): (r: string)
    ensures !IsReference(r)
    ensures r != "" ==> exists i :: 0 <= i < |props| && Selectable(props[i]) && props[i].1 == r
  {
    if |props| == 0 then ""
    else if Selectable(props[0]) then props[0].1
    else OtpPropertyValue(props[1..])
  }

  /** The loop yields the value of the first selectable property, or `""` when there is none. */
  lemma {:induction false} OtpPropertyValueFirst(props: seq<(string, string)>)
    ensures (forall i :: 0 <= i < |props| ==> !Selectable(props[i])) ==> OtpPropertyValue(props) == ""
    ensures forall i :: (0 <= i < |props| && Selectable(props[i]) && (forall j :: 0 <= j < i ==> !Selectable(props[j])))
                          ==> OtpPropertyValue(props) == props[i].1
  {
    if |props| > 0 {
      var tail := props[1..];
      OtpPropertyValueFirst(tail);
      forall i | 0 < i < |props| ensures props[i] == tail[i - 1] { }
    }
  }

  /**
   * The OTP value of an entry: the custom-property value when that is not
   * empty, else the `otp` field when it is not empty and not a reference, else
   * `""` (no OTP data).
   */
  function OtpValue(e: Entry): (r: string)
    ensures !IsReference(r)
    ensures r != "" ==> r == e.otp || exists i :: 0 <= i < |e.customProperties| && Selectable(e.customProperties[i])
                                                  && e.customProperties[i].1 == r
  {
    var fromProperty := OtpPropertyValue(e.customProperties);
    if fromProperty != "" then fromProperty
    else if e.otp != "" && !IsReference(e.otp) then e.otp
    else ""
  }

  /** The first selectable custom property with a value supplies the OTP value. */
  lemma OtpValueFromProperty(e: Entry, i: nat)
    requires i < |e.customProperties| && Selectable(e.customProperties[i]) && e.customProperties[i].1 != ""
    requires forall j :: 0 <= j < i ==> !Selectable(e.customProperties[j])
    ensures OtpValue(e) == e.customProperties[i].1
  {
    OtpPropertyValueFirst(e.customProperties);
  }

  /** Without a selectable custom property the `otp` field is used, unless it is empty or a reference. */
  lemma OtpValueFromOtpField(e: Entry)
    requires forall i :: 0 <= i < |e.customProperties| ==> !Selectable(e.customProperties[i])
    ensures OtpValue(e) == if e.otp != "" && !IsReference(e.otp) then e.otp else ""
  {
    OtpPropertyValueFirst(e.customProperties);
  }

  // ----- the simple-key fallback -----

  /** `[A-Z2-7]`: a base32 character. */
  predicate IsBase32Upper(c: char) { 'A' <= c <= 'Z' || '2' <= c <= '7' }

  /** `[A-Z2-7]` under `re.IGNORECASE`. */
  predicate IsBase32AnyCase(c: char) { IsBase32Upper(UpperChar(c)) }

  /** The end of the run of whitespace (`\s`) starting at `i`. */
  function SpaceEnd(s: string, i: nat): (r: nat)
    requires i <= |s|
    ensures i <= r <= |s|
    ensures forall k :: i <= k < r ==> IsSpace(s[k])
    ensures r < |s| ==> !IsSpace(s[r])
    decreases |s| - i
  {
    if i < |s| && IsSpace(s[i]) then SpaceEnd(s, i + 1) else i
  }

  /** The end of the run of base32 characters in any case starting at `i`. */
  function Base32RunEnd(s: string, i: nat): (r: nat)
    requires i <= |s|
    ensures i <= r <= |s|
    ensures forall k :: i <= k < r ==> IsBase32AnyCase(s[k])
    ensures r < |s| ==> !IsBase32AnyCase(s[r])
    decreases |s| - i
  {
    if i < |s| && IsBase32AnyCase(s[i]) then Base32RunEnd(s, i + 1) else i
  }

  /** The end of the run of upper-case base32 characters starting at `i`. */
  function UpperRunEnd(s: string, i: nat): (r: nat)
    requires i <= |s|
    ensures i <= r <= |s|
    ensures forall k :: i <= k < r ==> IsBase32Upper(s[k])
    ensures r < |s| ==> !IsBase32Upper(s[r])
    decreases |s| - i
  {
    if i < |s| && IsBase32Upper(s[i]) then UpperRunEnd(s, i + 1) else i
  }

  /**
   * The group of `key\s*=\s*([A-Z2-7]+)` (with `re.IGNORECASE`) when the pattern
   * matches at index `i`. The greedy runs need no backtracking: whitespace,
   * `=` and base32 characters are disjoint.
   */
  function KeyMatchAt(s: string, i: nat): (r: Option<string>)
    requires i <= |s|
    ensures r.Some? ==> r.value != "" && forall k :: 0 <= k < |r.value| ==> IsBase32AnyCase(r.value[k])
  {
    if i + 3 <= |s| && LowerChar(s[i]) == 'k' && LowerChar(s[i + 1]) == 'e' && LowerChar(s[i + 2]) == 'y' then
      var eq := SpaceEnd(s, i + 3);
      if eq < |s| && s[eq] == '=' then
        var start := SpaceEnd(s, eq + 1);
        var end := Base32RunEnd(s, start);
        if start < end then Some(s[start..end]) else None
      else None
    else None
  }

  /**
   * The pattern matched at `i` with its parts at known places: `key` in any case
   * at `i`, whitespace up to the `=` at `q`, whitespace up to `t`, and the group
   * `s[t..e]`, a non-empty run of base32 characters in any case that no further
   * base32 character extends.
   */
  predicate KeyMatchShape(s: string, i: nat, q: nat, t: nat, e: nat) {
    && i + 3 <= q < t < e <= |s|
    && LowerChar(s[i]) == 'k' && LowerChar(s[i + 1]) == 'e' && LowerChar(s[i + 2]) == 'y'
    && (forall k :: i + 3 <= k < q ==> IsSpace(s[k]))
    && s[q] == '='
    && (forall k :: q < k < t ==> IsSpace(s[k]))
    && (forall k :: t <= k < e ==> IsBase32AnyCase(s[k]))
    && (e < |s| ==> !IsBase32AnyCase(s[e]))
  }

  /** A base32 character in any case is not whitespace. */
  lemma Base32NotSpace(c: char)
    requires IsBase32AnyCase(c)
    ensures !IsSpace(c)
  {
  }

  /**
   * The pattern's meaning: it matches at `i` exactly when the text there has the
   * shape `KeyMatchShape` describes, and the captured group is that shape's run.
   */
  lemma KeyMatchExactly(s: string, i: nat)
    requires i <= |s|
    ensures KeyMatchAt(s, i).Some? <==> exists q: nat, t: nat, e: nat :: KeyMatchShape(s, i, q, t, e)
    ensures forall q: nat, t: nat, e: nat :: KeyMatchShape(s, i, q, t, e) ==> KeyMatchAt(s, i) == Some(s[t..e])
  {
    if KeyMatchAt(s, i).Some? {
      var q := SpaceEnd(s, i + 3);
      var t := SpaceEnd(s, q + 1);
      assert KeyMatchShape(s, i, q, t, Base32RunEnd(s, t));
    }
    forall q: nat, t: nat, e: nat | KeyMatchShape(s, i, q, t, e) ensures KeyMatchAt(s, i) == Some(s[t..e]) {
      KeyShapeIsMatch(s, i, q, t, e);
    }
  }

  /** Each part of a shape is where the greedy runs of `KeyMatchAt` end. */
  lemma KeyShapeIsMatch(s: string, i: nat, q: nat, t: nat, e: nat)
    requires KeyMatchShape(s, i, q, t, e)
    ensures KeyMatchAt(s, i) == Some(s[t..e])
  {
    var q' := SpaceEnd(s, i + 3);
    assert !IsSpace(s[q]);
    assert q' == q;
    var t' := SpaceEnd(s, q + 1);
    Base32NotSpace(s[t]);
    assert t' == t;
    var e' := Base32RunEnd(s, t);
    assert e' == e;
  }

  /** `re.search` from index `i`: the match at the leftmost index where there is one. */
  function KeySearchFrom(s: string, i: nat): (r: Option<string>)
    requires i <= |s|
    ensures r.Some? ==> r.value != "" && forall k :: 0 <= k < |r.value| ==> IsBase32AnyCase(r.value[k])
    decreases |s| - i
  {
    if KeyMatchAt(s, i).Some? then KeyMatchAt(s, i)
    else if i == |s| then None
    else KeySearchFrom(s, i + 1)
  }

  /** The search finds nothing exactly when no index from `i` on matches. */
  lemma {:induction false} KeySearchNone(s: string, i: nat)
    requires i <= |s|
    ensures KeySearchFrom(s, i).None? <==> forall k :: i <= k <= |s| ==> KeyMatchAt(s, k).None?
    decreases |s| - i
  {
    if KeyMatchAt(s, i).Some? {
      assert KeySearchFrom(s, i) == KeyMatchAt(s, i);
    } else if i < |s| {
      assert KeySearchFrom(s, i) == KeySearchFrom(s, i + 1);
      KeySearchNone(s, i + 1);
      assert (forall k :: i <= k <= |s| ==> KeyMatchAt(s, k).None?)
         <==> (forall k :: i + 1 <= k <= |s| ==> KeyMatchAt(s, k).None?);
    }
  }

  /** No index from `i` up to, not including, `k` matches the pattern. */
  predicate NoMatchBetween(s: string, i: nat, k: nat)
    requires i <= k <= |s|
  {
    forall j :: i <= j < k ==> KeyMatchAt(s, j).None?
  }

  /** When the search finds something, it is the match at the leftmost matching index. */
  lemma {:induction false} KeySearchLeftmost(s: string, i: nat)
    requires i <= |s| && KeySearchFrom(s, i).Some?
    ensures exists k :: i <= k <= |s| && KeySearchFrom(s, i) == KeyMatchAt(s, k) && NoMatchBetween(s, i, k)
    decreases |s| - i
  {
    var k := LeftmostIndex(s, i);
    assert KeySearchFrom(s, i) == KeyMatchAt(s, k) && NoMatchBetween(s, i, k);
  }

  /** The index `KeySearchLeftmost` speaks of. */
  lemma {:induction false} LeftmostIndex(s: string, i: nat) returns (k: nat)
    requires i <= |s| && KeySearchFrom(s, i).Some?
    ensures i <= k <= |s| && KeySearchFrom(s, i) == KeyMatchAt(s, k) && NoMatchBetween(s, i, k)
    decreases |s| - i
  {
    if KeyMatchAt(s, i).Some? {
      k := i;
    } else {
      k := LeftmostIndex(s, i + 1);
      assert NoMatchBetween(s, i + 1, k);
    }
  }

  /** `re.match(r'^[A-Z2-7]+=*$', s)`, case-sensitive. */
  predicate IsPlainBase32(s: string) {
    var n := UpperRunEnd(s, 0);
    n > 0 && forall k :: n <= k < |s| ==> s[k] == '='
  }

  /** One or more base32 characters (the first `n`) followed only by `=` padding. */
  predicate PlainShape(s: string, n: nat) {
    && 0 < n <= |s|
    && (forall k :: 0 <= k < n ==> IsBase32Upper(s[k]))
    && (forall k :: n <= k < |s| ==> s[k] == '=')
  }

  /** The pattern's meaning: one or more base32 characters followed only by `=` padding. */
  lemma PlainBase32Exactly(s: string)
    ensures IsPlainBase32(s) <==> exists n :: PlainShape(s, n)
  {
    var m := UpperRunEnd(s, 0);
    if IsPlainBase32(s) {
      assert PlainShape(s, m);
    }
    if exists n :: PlainShape(s, n) {
      var n :| PlainShape(s, n);
      assert m >= n;
    }
  }

  /** A non-empty string of base32 characters matches the pattern. */
  lemma AllBase32IsPlain(s: string)
    requires |s| > 0 && forall k :: 0 <= k < |s| ==> IsBase32Upper(s[k])
    ensures IsPlainBase32(s)
  {
    PlainBase32Exactly(s);
    assert PlainShape(s, |s|);
  }

  /** Upper-casing leaves a plain base32 string unchanged. */
  lemma PlainBase32Upper(s: string)
    requires IsPlainBase32(s)
    ensures Upper(s) == s
  {
    var n := UpperRunEnd(s, 0);
    assert forall k :: 0 <= k < |s| ==> !IsAsciiLower(s[k]) by {
      forall k | 0 <= k < |s| ensures !IsAsciiLower(s[k]) {
        if k < n { assert IsBase32Upper(s[k]); }
      }
    }
  }

  /** The upper-cased group of a `key = ...` match is a plain base32 string. */
  lemma UpperGroupIsPlain(g: string)
    requires g != "" && forall k :: 0 <= k < |g| ==> IsBase32AnyCase(g[k])
    ensures IsPlainBase32(Upper(g))
  {
    AllBase32IsPlain(Upper(g));
  }

  /**
   * The secret the simple-key fallback extracts from a value that is not an
   * otpauth URI: the upper-cased group of the first `key = ...` match, else the
   * stripped value when it is a plain base32 string; `simple_key_not_supported`
   * when neither applies and `no_secret_found` when the secret is shorter than
   * 16 characters.
   */
  function SimpleKeySecret(value: string): (r: Result<string, ExtractError>)
    ensures r.Err? ==> r.error == SimpleKeyNotSupported || r.error == NoSecretFound
    ensures r.Ok? ==> |r.value| >= 16 && IsPlainBase32(r.value)
  {
    var found := KeySearchFrom(value, 0);
    var stripped := Strip(value);
    if found.None? && !IsPlainBase32(stripped) then Err(SimpleKeyNotSupported)
    else
      var secret := if found.Some? then Upper(found.value) else Upper(stripped);
      assert IsPlainBase32(secret) by {
        if found.Some? { UpperGroupIsPlain(found.value); } else { PlainBase32Upper(stripped); }
      }
      if |secret| < 16 then Err(NoSecretFound) else Ok(secret)
  }

  /**
   * When each outcome of the simple-key fallback occurs: `simple_key_not_supported`
   * exactly when there is no `key = ...` match and the stripped value is not plain
   * base32; otherwise the candidate (the leftmost match's group, else the stripped
   * value) is upper-cased, and it is `no_secret_found` exactly when that has fewer
   * than 16 characters and the secret itself otherwise.
   */
  lemma SimpleKeySecretExactly(value: string)
    ensures var found := KeySearchFrom(value, 0);
            var candidate := if found.Some? then found.value else Strip(value);
            var recognized := found.Some? || IsPlainBase32(Strip(value));
            var r := SimpleKeySecret(value);
            && (r == Err(SimpleKeyNotSupported) <==> !recognized)
            && (r == Err(NoSecretFound) <==> recognized && |Upper(candidate)| < 16)
            && (r.Ok? <==> recognized && |Upper(candidate)| >= 16)
            && (r.Ok? ==> r.value == Upper(candidate))
            && (r.Ok? && found.Some? ==>
                  exists k :: && 0 <= k <= |value| && KeyMatchAt(value, k).Some?
                              && r.value == Upper(KeyMatchAt(value, k).value) && NoMatchBetween(value, 0, k))
  {
    if KeySearchFrom(value, 0).Some? {
      var k := LeftmostIndex(value, 0);
    }
  }

  /** A base32 secret with padding is plain query text. */
  lemma PlainBase32QuerySafe(s: string)
    requires IsPlainBase32(s)
    ensures QuerySafe(s)
  {
    assert forall c :: c in s ==> IsBase32Upper(c) || c == '=';
  }

  // ----- extraction -----

  /** The skip reasons `_extract_otp_from_entry` reports in its `error` key. */
  datatype ExtractError = ContainsFieldReferences | SimpleKeyNotSupported | NoSecretFound | InvalidUriFormat

  /** The OTP record of an entry: the parser's result plus the entry's URL and username. */
  datatype OtpData = OtpData(params: OtpParams, url: Option<string>, username: Option<string>)

  /** What `_extract_otp_from_entry` returns: `None`, a dictionary with an `error` key, or the OTP data. */
  datatype Extracted = NoOtp | Skipped(error: ExtractError) | Found(data: OtpData)

  /** `entry.title.replace(":", "_").replace("/", "_")`, as the source writes it. */
  function SanitizedAccountAsWritten(title: string): (r: string)
    ensures |r| == |title|
    ensures forall i :: 0 <= i < |title| ==> r[i] == if title[i] in {':', '/'} then '_' else title[i]
  {
    ReplaceChar(ReplaceChar(title, ':', '_'), '/', '_')
  }

  /** The account name with `?` and `#` replaced as well, so that all of it stays in the URI's label. */
  function SanitizedAccount(title: string): (r: string)
    ensures |r| == |title|
    ensures forall i :: 0 <= i < |title| ==> r[i] == if title[i] in {':', '/', '?', '#'} then '_' else title[i]
  {
    ReplaceChar(ReplaceChar(SanitizedAccountAsWritten(title), '?', '_'), '#', '_')
  }

  /** The query of the URI the simple-key fallback builds: the secret, period 30, 6 digits and SHA1. */
  function SimpleKeyFields(secret: string): seq<(string, string)> {
    [("secret", secret), ("period", "30"), ("digits", "6"), ("algorithm", "SHA1")]
  }

  /**
   * The URI the simple-key fallback builds,
   * `otpauth://totp/ACCOUNT?secret=SECRET&period=30&digits=6&algorithm=SHA1`.
   */
  function SimpleKeyUri(account: string, secret: string): string {
    "otpauth://" + "totp" + "/" + account + "?" + EncodeQuery(SimpleKeyFields(secret))
  }

  /** The URI to parse: the value itself when it starts with `otpauth://`, else the simple key's URI. */
  function OtpUriOf(value: string, account: string): Result<string, ExtractError> {
    if StartsWith(value, "otpauth://") then Ok(value)
    else
      match SimpleKeySecret(value)
      case Ok(secret) => Ok(SimpleKeyUri(account, secret))
      case Err(err) => Err(err)
  }

  /** A URL or username as the OTP record keeps it: `None` when empty or a reference. */
  function KeptField(s: string): Option<string> {
    if s != "" && !IsReference(s) then Some(s) else None
  }

  /** `_extract_otp_from_entry` with the account name the simple-key fallback writes given. */
  function ExtractWithAccount(e: Entry, account: string): (r: Extracted)
    ensures r.Found? ==> r.data.params.secret != ""
  {
    if HasReferences(e) then Skipped(ContainsFieldReferences)
    else
      var value := OtpValue(e);
      if value == "" then NoOtp
      else
        match OtpUriOf(value, account)
        case Err(err) => Skipped(err)
        case Ok(uri) =>
          match ParseOtpauthUri(uri)
          case None => Skipped(InvalidUriFormat)
          case Some(params) => Found(OtpData(params, KeptField(e.url), KeptField(e.username)))
  }

  /**
   * `_extract_otp_from_entry` as the source writes it. For a title without
   * `?` and `#` it is the corrected extraction.
   */
  function ExtractOtpFromEntryAsWritten(e: Entry): (r: Extracted)
    ensures r.Found? ==> r.data.params.secret != ""
    ensures '?' !in e.title && '#' !in e.title ==> r == ExtractOtpFromEntry(e)
  {
    assert '?' !in e.title && '#' !in e.title ==> SanitizedAccountAsWritten(e.title) == SanitizedAccount(e.title);
    ExtractWithAccount(e, SanitizedAccountAsWritten(e.title))
  }

  /**
   * `_extract_otp_from_entry` with the account name of the simple-key fallback
   * fully sanitized. It differs from the source only on the simple-key path:
   * an entry with references, without an OTP value, with an otpauth value, or
   * whose value is no usable simple key gets the same result.
   */
  function ExtractOtpFromEntry(e: Entry): (r: Extracted)
    ensures r.Found? ==> r.data.params.secret != ""
    ensures (|| HasReferences(e) || OtpValue(e) == "" || StartsWith(OtpValue(e), "otpauth://")
             || SimpleKeySecret(OtpValue(e)).Err?)
            ==> r == ExtractWithAccount(e, SanitizedAccountAsWritten(e.title))
  {
    ExtractWithAccount(e, SanitizedAccount(e.title))
  }

  /** An entry with a field reference is skipped for that reason, before any OTP value is looked at; no other entry is. */
  lemma ReferencesFirst(e: Entry, account: string)
    ensures ExtractWithAccount(e, account) == Skipped(ContainsFieldReferences) <==> HasReferences(e)
  {
  }

  /** There is no OTP record and no skip reason exactly when the entry has no references and no OTP value. */
  lemma NoOtpExactly(e: Entry, account: string)
    ensures ExtractWithAccount(e, account) == NoOtp <==> !HasReferences(e) && OtpValue(e) == ""
  {
  }

  /**
   * An otpauth value is parsed as it is: the entry is kept exactly when the
   * parser accepts it, with the parser's parameters and the entry's URL and
   * username (`None` when empty; they cannot be references here).
   */
  lemma UriValueParsed(e: Entry, account: string)
    requires !HasReferences(e) && StartsWith(OtpValue(e), "otpauth://")
    ensures var r := ExtractWithAccount(e, account);
            var parsed := ParseOtpauthUri(OtpValue(e));
            && (parsed.None? ==> r == Skipped(InvalidUriFormat))
            && (parsed.Some? ==> r == Found(OtpData(parsed.value,
                                         if e.url == "" then None else Some(e.url),
                                         if e.username == "" then None else Some(e.username))))
  {
  }

  /** A value that is neither an otpauth URI nor a usable simple key is skipped with the simple key's reason. */
  lemma SimpleKeyRejected(e: Entry, account: string)
    requires !HasReferences(e) && OtpValue(e) != "" && !StartsWith(OtpValue(e), "otpauth://")
    requires SimpleKeySecret(OtpValue(e)).Err?
    ensures ExtractWithAccount(e, account) == Skipped(SimpleKeySecret(OtpValue(e)).error)
  {
  }

  /** The simple-key URI is the Key URI of a TOTP key with no issuer and the defaults. */
  lemma SimpleKeyUriIsKeyUri(account: string, secret: string)
    ensures SimpleKeyUri(account, secret) == KeyUri(OtpParams(secret, None, account, 30, 6, "SHA1", "totp"))
  {
    assert NatToString(3) == "3";
    assert NatToString(30) == NatToString(3) + "0";
    assert NatToString(30) == "30";
    assert NatToString(6) == "6";
  }

  /**
   * A sanitized title, once the splitter has removed its tabs and line breaks,
   * is a label the parser reads back whole; a title without them keeps its
   * sanitized form.
   */
  lemma SanitizedAccountLabel(title: string)
    ensures var a := RemoveUnsafe(SanitizedAccount(title));
            LabelSafe(a) && ':' !in a && (|a| == 0 || a[0] != '/')
    ensures NoUnsafe(title) ==> RemoveUnsafe(SanitizedAccount(title)) == SanitizedAccount(title)
  {
    var a := RemoveUnsafe(SanitizedAccount(title));
    if |a| > 0 {
      assert a[0] in a;
    }
  }

  /** The simple-key URI of a base32 secret and a label-safe account parses to the TOTP defaults. */
  lemma SimpleKeyUriParses(account: string, secret: string)
    requires IsPlainBase32(secret) && LabelSafe(account) && ':' !in account && (|account| == 0 || account[0] != '/')
    ensures ParseOtpauthUri(SimpleKeyUri(account, secret)) == Some(OtpParams(secret, None, account, 30, 6, "SHA1", "totp"))
  {
    var p := OtpParams(secret, None, account, 30, 6, "SHA1", "totp");
    SimpleKeyUriIsKeyUri(account, secret);
    PlainBase32QuerySafe(secret);
    AlnumWordPlain("SHA1");
    assert Encodable(p);
    KeyUriRoundTrip(p);
  }

  /** A usable simple key is looked up in its synthesized URI. */
  lemma ExtractSimpleKey(e: Entry, account: string)
    requires !HasReferences(e) && OtpValue(e) != "" && !StartsWith(OtpValue(e), "otpauth://")
    requires SimpleKeySecret(OtpValue(e)).Ok?
    ensures var uri := SimpleKeyUri(account, SimpleKeySecret(OtpValue(e)).value);
            ExtractWithAccount(e, account) ==
              match ParseOtpauthUri(uri)
              case None => Skipped(InvalidUriFormat)
              case Some(params) => Found(OtpData(params, KeptField(e.url), KeptField(e.username)))
  {
  }

  /**
   * A usable simple key becomes a TOTP record with the upper-cased secret, no
   * issuer, the sanitized title as account and period 30, 6 digits and SHA1,
   * whatever the title: a tab or line break in it is removed by the URI
   * splitter, so the account is the sanitized title without them.
   */
  lemma SimpleKeyFound(e: Entry)
    requires !HasReferences(e) && OtpValue(e) != "" && !StartsWith(OtpValue(e), "otpauth://")
    requires SimpleKeySecret(OtpValue(e)).Ok?
    ensures ExtractOtpFromEntry(e) == Found(OtpData(
              OtpParams(SimpleKeySecret(OtpValue(e)).value, None, RemoveUnsafe(SanitizedAccount(e.title)), 30, 6, "SHA1", "totp"),
              KeptField(e.url), KeptField(e.username)))
  {
    var account := SanitizedAccount(e.title);
    SanitizedAccountLabel(e.title);
    SimpleKeyUriParsesCleaned(account, SimpleKeySecret(OtpValue(e)).value);
    ExtractSimpleKey(e, account);
  }

  /** The simple-key URI parses as the one whose account has no tab or line break. */
  lemma SimpleKeyUriParsesCleaned(account: string, secret: string)
    requires IsPlainBase32(secret)
    requires var a := RemoveUnsafe(account); LabelSafe(a) && ':' !in a && (|a| == 0 || a[0] != '/')
    ensures ParseOtpauthUri(SimpleKeyUri(account, secret))
            == Some(OtpParams(secret, None, RemoveUnsafe(account), 30, 6, "SHA1", "totp"))
  {
    SimpleKeyUriParses(RemoveUnsafe(account), secret);
    SimpleKeyUriUnsafeRemoved(account, secret);
    UrlSplitIgnoresUnsafe(SimpleKeyUri(account, secret));
  }

  /** Removing tabs and line breaks from a simple-key URI removes them from its account only. */
  lemma SimpleKeyUriUnsafeRemoved(account: string, secret: string)
    requires IsPlainBase32(secret)
    ensures RemoveUnsafe(SimpleKeyUri(account, secret)) == SimpleKeyUri(RemoveUnsafe(account), secret)
  {
    var front := "otpauth://" + "totp" + "/";
    var back := "?" + EncodeQuery(SimpleKeyFields(secret));
    SimpleKeyQueryClean(secret);
    assert NoUnsafe(front) && NoUnsafe(back);
    assert SimpleKeyUri(account, secret) == front + account + back;
    assert SimpleKeyUri(RemoveUnsafe(account), secret) == front + RemoveUnsafe(account) + back;
    RemoveUnsafeAppend(front + account, back);
    RemoveUnsafeAppend(front, account);
  }

  /** The query of a simple-key URI has no tab or line break. */
  lemma SimpleKeyQueryClean(secret: string)
    requires IsPlainBase32(secret)
    ensures NoUnsafe(EncodeQuery(SimpleKeyFields(secret)))
  {
    var fields := SimpleKeyFields(secret);
    PlainBase32QuerySafe(secret);
    AlnumWordPlain("secret");
    AlnumWordPlain("period");
    AlnumWordPlain("digits");
    AlnumWordPlain("algorithm");
    AlnumWordPlain("30");
    AlnumWordPlain("6");
    AlnumWordPlain("SHA1");
    EncodeQueryAvoids(fields, '\t');
    EncodeQueryAvoids(fields, '\r');
    EncodeQueryAvoids(fields, '\n');
  }

  /** The as-written account keeps a `#` of the title and adds no `?`, tab or line break. */
  lemma AsWrittenAccountChars(title: string)
    requires '#' in title && '?' !in title && NoUnsafe(title)
    ensures var a := SanitizedAccountAsWritten(title);
            '#' in a && '?' !in a && NoUnsafe(a)
  {
    var k :| 0 <= k < |title| && title[k] == '#';
    assert SanitizedAccountAsWritten(title)[k] == '#';
  }

  /**
   * As written, a title with a `#` (and no `?`) puts the fragment marker inside
   * the synthesized URI's label: the query with the secret becomes the
   * fragment and a usable simple key is skipped as an invalid URI.
   */
  lemma AsWrittenFragmentInTitle(e: Entry)
    requires !HasReferences(e) && OtpValue(e) != "" && !StartsWith(OtpValue(e), "otpauth://")
    requires SimpleKeySecret(OtpValue(e)).Ok? && NoUnsafe(e.title)
    requires '#' in e.title && '?' !in e.title
    ensures ExtractOtpFromEntryAsWritten(e) == Skipped(InvalidUriFormat)
  {
    var secret := SimpleKeySecret(OtpValue(e)).value;
    var account := SanitizedAccountAsWritten(e.title);
    AsWrittenAccountChars(e.title);
    SimpleKeyQueryClean(secret);
    FragmentInLabelRejected("totp", account, EncodeQuery(SimpleKeyFields(secret)));
    ExtractSimpleKey(e, account);
  }

  // ----- the person a database belongs to -----

  /**
   * `_get_person_info(person_state)`: the person's display name (the
   * `friendly_name` attribute, else the state's name) passed through the
   * path sanitizer, and the part of the entity ID after its first `.`. An
   * entity ID without a `.` raises `ValueError`. The sanitizer is a parameter.
   */
  function GetPersonInfo(friendlyName: string, name: string, entityId: string, sanitize: string -> string)
    : (r: Result<(string, string), string>)
    ensures r.Err? <==> '.' !in entityId
    ensures r.Err? ==> r.error == "Invalid person entity ID format: " + entityId
    ensures r.Ok? ==> r.value.0 == sanitize(if friendlyName != "" then friendlyName else name)
  {
    var rawPersonName := if friendlyName != "" then friendlyName else name;
    var personName := sanitize(rawPersonName);
    if '.' !in entityId then Err("Invalid person entity ID format: " + entityId)
    else Ok((personName, SplitOnce(entityId, '.').1))
  }

  /** For an entity ID `domain.id` whose domain has no `.`, the person ID is `id`, whatever `id` holds. */
  lemma PersonIdAfterDomain(friendlyName: string, name: string, domain: string, id: string, sanitize: string -> string)
    requires '.' !in domain
    ensures GetPersonInfo(friendlyName, name, domain + "." + id, sanitize) == Ok((sanitize(if friendlyName != "" then friendlyName else name), id))
  {
    SplitOnceAt(domain, '.', id);
  }
}
