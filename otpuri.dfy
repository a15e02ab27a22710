/**
 * `_parse_otpauth_uri`: the Key URI Format of Google Authenticator,
 * `otpauth://{totp|hotp}/[issuer:]account?secret=..&period=..&digits=..&algorithm=..&issuer=..`,
 * mapped to the OTP parameters the integration stores, or rejected.
 * config_flow.py and sensor.py carry the same body; the sensor copy adds the
 * entry name to the result (module Sensor).
 */
module OtpUri {
  import opened Wrappers
  import opened PyStr
  import opened UrlParse

  /** The dictionary `_parse_otpauth_uri` returns. */
  datatype OtpParams = OtpParams(
    secret: string,
    issuer: Option<string>,
    account: string,
    period: int,
    digits: int,
    algorithm: string,
    otpType: string)

  const DefaultPeriod: string := "30"
  const DefaultDigits: string := "6"
  const DefaultAlgorithm: string := "SHA1"

  /** The label (the path without its leading slashes) split at its first `:` into issuer and account. */
  function SplitLabel(labelText: string): (r: (Option<string>, string))
    ensures r.0.None? ==> ':' !in labelText && r.1 == labelText
    ensures r.0.Some? ==> ':' !in r.0.value && labelText == r.0.value + ":" + r.1
  {
    if ':' in labelText then
      var (issuer, account) := SplitOnce(labelText, ':');
      (Some(issuer), account)
    else (None, labelText)
  }

  /**
   * What the parser does once the scheme and the type are accepted: the label
   * and the query fields give the result, unless the secret is missing or
   * `int()` rejects the period or the digit count (the `except` branch).
   */
  function FromParts(otpType: string, labelText: string, params: seq<(string, string)>): (r: Option<OtpParams>)
    ensures r.Some? ==> r.value.secret != "" && r.value.otpType == otpType
  {
    var (labelIssuer, account) := SplitLabel(labelText);
    match FirstValue(params, "secret")
    case None => None
    case Some(secret) =>
      if secret == "" then None
      else
        var period := ParseInt(FirstValue(params, "period").GetOr(DefaultPeriod));
        var digits := ParseInt(FirstValue(params, "digits").GetOr(DefaultDigits));
        if period.None? || digits.None? then None
        else
          var algorithm := FirstValue(params, "algorithm").GetOr(DefaultAlgorithm);
          var issuer := if FirstValue(params, "issuer").Some? then FirstValue(params, "issuer") else labelIssuer;
          Some(OtpParams(secret, issuer, account, period.value, digits.value, algorithm, otpType))
  }

  /** `_parse_otpauth_uri(uri, entry_name)` without the entry name, which only reaches the log. */
  function ParseOtpauthUri(uri: string): (r: Option<OtpParams>)
    ensures r.Some? ==> r.value.secret != ""
    ensures r.Some? ==> r.value.otpType == "totp" || r.value.otpType == "hotp"
  {
    var u := UrlSplit(uri);
    if u.scheme != "otpauth" then None
    else if u.netloc != "totp" && u.netloc != "hotp" then None
    else FromParts(u.netloc, LStripChar(u.path, '/'), ParseQsl(u.query))
  }

  /**
   * The parser rejects a URI exactly when the scheme is not `otpauth`, the
   * type is neither `totp` nor `hotp`, there is no non-empty `secret`, or the
   * period or digit count (given or defaulted) is not an integer.
   */
  lemma ParseRejects(uri: string)
    ensures var u := UrlSplit(uri);
            var params := ParseQsl(u.query);
            ParseOtpauthUri(uri).None? <==>
              || u.scheme != "otpauth"
              || (u.netloc != "totp" && u.netloc != "hotp")
              || FirstValue(params, "secret").None?
              || ParseInt(FirstValue(params, "period").GetOr(DefaultPeriod)).None?
              || ParseInt(FirstValue(params, "digits").GetOr(DefaultDigits)).None?
  {
    var u := UrlSplit(uri);
    var params := ParseQsl(u.query);
    var s := FirstValue(params, "secret");
    FirstValueSpec(params, "secret");
    if s.Some? {
      var i :| 0 <= i < |params| && params[i] == ("secret", s.value);
      assert s.value == params[i].1 != "";
    }
    if u.scheme == "otpauth" && (u.netloc == "totp" || u.netloc == "hotp") {
      FromPartsRejects(u.netloc, LStripChar(u.path, '/'), params);
    }
  }

  /** Accepted parts are rejected exactly for a missing or empty secret or a period or digit count `int()` refuses. */
  lemma FromPartsRejects(otpType: string, labelText: string, params: seq<(string, string)>)
    ensures FromParts(otpType, labelText, params).None? <==>
              || FirstValue(params, "secret").None?
              || FirstValue(params, "secret") == Some("")
              || ParseInt(FirstValue(params, "period").GetOr(DefaultPeriod)).None?
              || ParseInt(FirstValue(params, "digits").GetOr(DefaultDigits)).None?
  {
  }

  /** `int("30") == 30` and `int("6") == 6`: the textual defaults become the numeric ones. */
  lemma DefaultsAsIntegers()
    ensures ParseInt(DefaultPeriod) == Some(30) && ParseInt(DefaultDigits) == Some(6)
  {
    assert NatToString(3) == "3";
    assert NatToString(30) == NatToString(3) + "0";
    assert NatToString(30) == DefaultPeriod;
    ParseIntNatToString(30);
    assert NatToString(6) == DefaultDigits;
    ParseIntNatToString(6);
  }

  /**
   * What accepted parts yield: the first `secret`, the type, the account from the
   * label, the issuer from the `issuer` parameter when there is one and the label
   * prefix otherwise, and the defaults 30, 6 and SHA1 for absent parameters.
   */
  lemma FromPartsFields(otpType: string, labelText: string, params: seq<(string, string)>)
    requires FromParts(otpType, labelText, params).Some?
    ensures var r := FromParts(otpType, labelText, params).value;
            var (labelIssuer, account) := SplitLabel(labelText);
            && FirstValue(params, "secret") == Some(r.secret)
            && r.otpType == otpType
            && r.account == account
            && r.issuer == (if FirstValue(params, "issuer").Some? then FirstValue(params, "issuer") else labelIssuer)
            && (FirstValue(params, "period").None? ==> r.period == 30)
            && (FirstValue(params, "period").Some? ==> ParseInt(FirstValue(params, "period").value) == Some(r.period))
            && (FirstValue(params, "digits").None? ==> r.digits == 6)
            && (FirstValue(params, "digits").Some? ==> ParseInt(FirstValue(params, "digits").value) == Some(r.digits))
            && r.algorithm == FirstValue(params, "algorithm").GetOr("SHA1")
  {
    DefaultsAsIntegers();
  }

  /** The same, read from the URI: the parser keeps what the query and label say. */
  lemma ParseFields(uri: string)
    requires ParseOtpauthUri(uri).Some?
    ensures var r := ParseOtpauthUri(uri).value;
            var u := UrlSplit(uri);
            var params := ParseQsl(u.query);
            var (labelIssuer, account) := SplitLabel(LStripChar(u.path, '/'));
            && FirstValue(params, "secret") == Some(r.secret)
            && r.otpType == u.netloc
            && r.account == account
            && r.issuer == (if FirstValue(params, "issuer").Some? then FirstValue(params, "issuer") else labelIssuer)
            && (FirstValue(params, "period").None? ==> r.period == 30)
            && (FirstValue(params, "period").Some? ==> ParseInt(FirstValue(params, "period").value) == Some(r.period))
            && (FirstValue(params, "digits").None? ==> r.digits == 6)
            && (FirstValue(params, "digits").Some? ==> ParseInt(FirstValue(params, "digits").value) == Some(r.digits))
            && r.algorithm == FirstValue(params, "algorithm").GetOr("SHA1")
  {
    var u := UrlSplit(uri);
    FromPartsFields(u.netloc, LStripChar(u.path, '/'), ParseQsl(u.query));
  }

  /** A repeated parameter does not change the result: the query's first value is the one read. */
  lemma RepeatedParameterIgnored(otpType: string, labelText: string, params: seq<(string, string)>,
                                 name: string, value: string)
    requires FirstValue(params, name).Some?
    ensures FromParts(otpType, labelText, params + [(name, value)]) == FromParts(otpType, labelText, params)
  {
    FirstValueAppendPresent(params, name, value, "secret");
    FirstValueAppendPresent(params, name, value, "period");
    FirstValueAppendPresent(params, name, value, "digits");
    FirstValueAppendPresent(params, name, value, "algorithm");
    FirstValueAppendPresent(params, name, value, "issuer");
  }

  /** `otpauth:` is read as the scheme. */
  lemma SchemeOfOtpauth(rest: string)
    ensures SplitScheme("otpauth:" + rest) == ("otpauth", rest)
  {
    var url := "otpauth:" + rest;
    assert url == "otpauth" + [':'] + rest;
    SplitOnceAt("otpauth", ':', rest);
    assert FindChar(url, ':') == 7;
    assert url[..7] == "otpauth";
    assert forall j :: 0 <= j < 7 ==> IsSchemeChar(url[j]);
    assert Lower("otpauth") == "otpauth";
    assert url[8..] == rest;
  }

  /** The authority of `//TYPE/...` is `TYPE`. */
  lemma AuthorityOfType(otpType: string, afterNetloc: string)
    requires otpType == "totp" || otpType == "hotp"
    requires |afterNetloc| > 0 && afterNetloc[0] == '/'
    ensures SplitAuthority("//" + otpType + afterNetloc) == (otpType, afterNetloc)
  {
    var rest := "//" + otpType + afterNetloc;
    assert rest[2..] == otpType + afterNetloc;
    FindAnyAt(otpType + afterNetloc, {'/', '?', '#'}, 4);
    assert (otpType + afterNetloc)[..4] == otpType;
    assert (otpType + afterNetloc)[4..] == afterNetloc;
  }

  /** `/LABEL?QUERY` with no `#` and no `?` in the label splits into that path and query. */
  lemma PathAndQuery(scheme: string, netloc: string, labelText: string, query: string)
    requires '?' !in labelText && '#' !in labelText && '#' !in query
    ensures SplitPathQueryFragment(scheme, netloc, "/" + labelText + "?" + query)
         == SplitUrl(scheme, netloc, "/" + labelText, query, "")
  {
    var afterNetloc := "/" + labelText + "?" + query;
    assert '#' !in afterNetloc;
    SplitOnceAt("/" + labelText, '?', query);
  }

  /** A URI that starts with a visible character and has no tab or line break is split as written. */
  lemma CleanUri(uri: string)
    requires |uri| > 0 && uri[0] > ' ' && NoUnsafe(uri)
    ensures RemoveUnsafe(LStripC0(uri)) == uri
  {
  }

  /** How `urlsplit` divides `otpauth://TYPE/LABEL?QUERY`. */
  lemma UrlSplitComposed(otpType: string, labelText: string, query: string)
    requires otpType == "totp" || otpType == "hotp"
    requires NoUnsafe(labelText) && '?' !in labelText && '#' !in labelText
    requires NoUnsafe(query) && '#' !in query
    ensures UrlSplit("otpauth://" + otpType + "/" + labelText + "?" + query)
         == SplitUrl("otpauth", otpType, "/" + labelText, query, "")
  {
    var afterNetloc := "/" + labelText + "?" + query;
    var rest := "//" + otpType + afterNetloc;
    var uri := "otpauth:" + rest;
    assert uri == "otpauth://" + otpType + "/" + labelText + "?" + query;
    assert NoUnsafe("otpauth:" + "//" + otpType + "/" + "?");
    CleanUri(uri);
    SchemeOfOtpauth(rest);
    AuthorityOfType(otpType, afterNetloc);
    PathAndQuery("otpauth", otpType, labelText, query);
  }

  /**
   * A URI written as `otpauth://TYPE/LABEL?QUERY`, with no tab, line break or `#`
   * and no `?` in the label, parses as its label and query fields say.
   */
  lemma ParseComposed(otpType: string, labelText: string, query: string)
    requires otpType == "totp" || otpType == "hotp"
    requires NoUnsafe(labelText) && '?' !in labelText && '#' !in labelText
    requires NoUnsafe(query) && '#' !in query
    requires |labelText| == 0 || labelText[0] != '/'
    ensures ParseOtpauthUri("otpauth://" + otpType + "/" + labelText + "?" + query)
         == FromParts(otpType, labelText, ParseQsl(query))
  {
    UrlSplitComposed(otpType, labelText, query);
    assert ("/" + labelText)[1..] == labelText;
  }

  /** With a `#` and no `?` in the label, the query after it lands in the fragment. */
  lemma FragmentSwallowsQuery(scheme: string, netloc: string, labelText: string, query: string)
    requires '#' in labelText && '?' !in labelText
    ensures SplitPathQueryFragment(scheme, netloc, "/" + labelText + "?" + query).query == ""
  {
    var k := FindChar(labelText, '#');
    var before, after := labelText[..k], labelText[k + 1..];
    assert labelText == before + "#" + after;
    assert "/" + labelText + "?" + query == ("/" + before) + ['#'] + (after + "?" + query);
    assert '?' !in "/" + before;
    SplitOnceAt("/" + before, '#', after + "?" + query);
  }

  /**
   * A `#` in the label starts the fragment, so the query after the label is
   * never read: such a URI has no secret and is rejected.
   */
  lemma FragmentInLabelRejected(otpType: string, labelText: string, query: string)
    requires otpType == "totp" || otpType == "hotp"
    requires '#' in labelText && '?' !in labelText
    requires NoUnsafe(labelText) && NoUnsafe(query)
    ensures ParseOtpauthUri("otpauth://" + otpType + "/" + labelText + "?" + query) == None
  {
    var afterNetloc := "/" + labelText + "?" + query;
    var rest := "//" + otpType + afterNetloc;
    var uri := "otpauth:" + rest;
    assert uri == "otpauth://" + otpType + "/" + labelText + "?" + query;
    assert NoUnsafe("otpauth:" + "//" + otpType + "/" + "?");
    CleanUri(uri);
    SchemeOfOtpauth(rest);
    AuthorityOfType(otpType, afterNetloc);
    FragmentSwallowsQuery("otpauth", otpType, labelText, query);
    assert UrlSplit(uri).query == "";
  }
}
