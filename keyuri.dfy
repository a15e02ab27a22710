/**
 * The writer side of the Key URI Format: OTP parameters written as
 * `otpauth://TYPE/[ISSUER:]ACCOUNT?secret=..[&issuer=..]&period=..&digits=..&algorithm=..`.
 * The parser is proved to be its inverse on parameters that need no quoting.
 */
module KeyUriFormat {
  import opened Wrappers
  import opened PyStr
  import opened UrlParse
  import opened OtpUri

  /** The label a Key URI carries: `issuer:account`, or the account alone. */
  function KeyUriLabel(p: OtpParams): string {
    if p.issuer.Some? then p.issuer.value + ":" + p.account else p.account
  }

  /** The query fields a Key URI carries, in the order the Key URI Format lists them. */
  function KeyUriFields(p: OtpParams): seq<(string, string)>
    requires p.period >= 0 && p.digits >= 0
  {
    var period, digits := NatToString(p.period), NatToString(p.digits);
    if p.issuer.Some? then
      [("secret", p.secret), ("issuer", p.issuer.value), ("period", period), ("digits", digits), ("algorithm", p.algorithm)]
    else
      [("secret", p.secret), ("period", period), ("digits", digits), ("algorithm", p.algorithm)]
  }

  /** The Key URI of a set of OTP parameters: the format the parser reads. */
  function KeyUri(p: OtpParams): string
    requires p.period >= 0 && p.digits >= 0
  {
    "otpauth://" + p.otpType + "/" + KeyUriLabel(p) + "?" + EncodeQuery(KeyUriFields(p))
  }

  /**
   * OTP parameters that a Key URI writes without quoting: a TOTP or HOTP type,
   * a non-negative period and digit count, a plain secret and algorithm, an
   * issuer free of `:` and a label that does not start with `/`.
   */
  predicate Encodable(p: OtpParams) {
    && (p.otpType == "totp" || p.otpType == "hotp")
    && p.period >= 0 && p.digits >= 0
    && QuerySafe(p.secret) && QuerySafe(p.algorithm)
    && LabelSafe(p.account)
    && (p.issuer.Some? ==> QuerySafe(p.issuer.value) && LabelSafe(p.issuer.value)
                           && ':' !in p.issuer.value && p.issuer.value[0] != '/')
    && (p.issuer.None? ==> ':' !in p.account && (|p.account| == 0 || p.account[0] != '/'))
  }

  /** Digits are plain query text. */
  lemma DigitsQuerySafe(n: nat)
    ensures QuerySafe(NatToString(n))
  {
    var d := NatToString(n);
    assert forall c :: c in d ==> IsAsciiDigit(c);
  }

  /** A word of ASCII letters and digits, such as a field name of the Key URI Format, is plain query text without `=`. */
  lemma AlnumWordPlain(s: string)
    requires |s| > 0 && forall i :: 0 <= i < |s| ==> IsAsciiAlpha(s[i]) || IsAsciiDigit(s[i])
    ensures QuerySafe(s) && '=' !in s
  {
  }

  /** The query of a Key URI has none of the characters the URI splitter reacts to, and reads back as its fields. */
  lemma KeyUriQuerySafe(p: OtpParams)
    requires Encodable(p)
    ensures var q := EncodeQuery(KeyUriFields(p));
            NoUnsafe(q) && '#' !in q
    ensures ParseQsl(EncodeQuery(KeyUriFields(p))) == KeyUriFields(p)
  {
    var fields := KeyUriFields(p);
    DigitsQuerySafe(p.period);
    DigitsQuerySafe(p.digits);
    AlnumWordPlain("secret");
    AlnumWordPlain("issuer");
    AlnumWordPlain("period");
    AlnumWordPlain("digits");
    AlnumWordPlain("algorithm");
    assert forall i :: 0 <= i < |fields| ==> QuerySafe(fields[i].0) && '=' !in fields[i].0;
    assert forall i :: 0 <= i < |fields| ==> QuerySafe(fields[i].1);
    EncodeQueryAvoids(fields, '\t');
    EncodeQueryAvoids(fields, '\r');
    EncodeQueryAvoids(fields, '\n');
    EncodeQueryAvoids(fields, '#');
    ParseQslEncodeQuery(fields);
  }

  /** The label of a Key URI splits back into its issuer and account. */
  lemma KeyUriLabelSplits(p: OtpParams)
    requires Encodable(p)
    ensures LabelSafe(KeyUriLabel(p))
    ensures |KeyUriLabel(p)| == 0 || KeyUriLabel(p)[0] != '/'
    ensures SplitLabel(KeyUriLabel(p)) == (p.issuer, p.account)
  {
    if p.issuer.Some? {
      var l := KeyUriLabel(p);
      assert l == p.issuer.value + [':'] + p.account;
      SplitOnceAt(p.issuer.value, ':', p.account);
      forall c | c in {'\t', '\r', '\n', '?', '#'} ensures c !in l {
        assert c !in p.issuer.value && c !in p.account;
      }
    }
  }

  /** The names of a Key URI's fields are pairwise different. */
  lemma KeyNamesDistinct()
    ensures "secret" != "issuer" && "secret" != "period" && "secret" != "digits" && "secret" != "algorithm"
    ensures "issuer" != "period" && "issuer" != "digits" && "issuer" != "algorithm"
    ensures "period" != "digits" && "period" != "algorithm" && "digits" != "algorithm"
  {
    assert "secret"[0] == 's' && "issuer"[0] == 'i' && "period"[0] == 'p' && "digits"[0] == 'd';
    assert |"algorithm"| == 9 && |"secret"| == |"issuer"| == |"period"| == |"digits"| == 6;
  }

  /** The first value of a name among fields whose names are pairwise different. */
  lemma LookupDistinct(fields: seq<(string, string)>, i: nat)
    requires i < |fields|
    requires forall j, k :: 0 <= j < k < |fields| ==> fields[j].0 != fields[k].0
    ensures FirstValue(fields, fields[i].0) == Some(fields[i].1)
  {
    FirstValueAt(fields, i);
  }

  /** The names of a Key URI's fields are pairwise different. */
  lemma KeyUriNamesDistinct(p: OtpParams)
    requires Encodable(p)
    ensures var fields := KeyUriFields(p);
            forall j, k :: 0 <= j < k < |fields| ==> fields[j].0 != fields[k].0
  {
    KeyNamesDistinct();
  }

  /** The first value of each key among a Key URI's fields. */
  lemma KeyUriLookups(p: OtpParams)
    requires Encodable(p)
    ensures FirstValue(KeyUriFields(p), "secret") == Some(p.secret)
    ensures FirstValue(KeyUriFields(p), "period") == Some(NatToString(p.period))
    ensures FirstValue(KeyUriFields(p), "digits") == Some(NatToString(p.digits))
    ensures FirstValue(KeyUriFields(p), "algorithm") == Some(p.algorithm)
    ensures FirstValue(KeyUriFields(p), "issuer") == p.issuer
  {
    KeyUriNamesDistinct(p);
    var fields := KeyUriFields(p);
    if p.issuer.Some? {
      LookupDistinct(fields, 0);
      LookupDistinct(fields, 1);
      LookupDistinct(fields, 2);
      LookupDistinct(fields, 3);
      LookupDistinct(fields, 4);
    } else {
      NoIssuerLookups(fields, p.secret, NatToString(p.period), NatToString(p.digits), p.algorithm);
    }
  }

  /** The lookups among the four fields of a Key URI without an issuer. */
  lemma NoIssuerLookups(fields: seq<(string, string)>, secret: string, period: string, digits: string, algorithm: string)
    requires fields == [("secret", secret), ("period", period), ("digits", digits), ("algorithm", algorithm)]
    ensures FirstValue(fields, "secret") == Some(secret)
    ensures FirstValue(fields, "period") == Some(period)
    ensures FirstValue(fields, "digits") == Some(digits)
    ensures FirstValue(fields, "algorithm") == Some(algorithm)
    ensures FirstValue(fields, "issuer") == None
  {
    KeyNamesDistinct();
    LookupDistinct(fields, 0);
    LookupDistinct(fields, 1);
    LookupDistinct(fields, 2);
    LookupDistinct(fields, 3);
    assert forall i :: 0 <= i < |fields| ==> fields[i].0 != "issuer";
    FirstValueSpec(fields, "issuer");
  }

  /** The parts of a Key URI give back its parameters. */
  lemma KeyUriFromParts(p: OtpParams)
    requires Encodable(p)
    ensures FromParts(p.otpType, KeyUriLabel(p), KeyUriFields(p)) == Some(p)
  {
    KeyUriLabelSplits(p);
    KeyUriLookups(p);
    ParseIntNatToString(p.period);
    ParseIntNatToString(p.digits);
  }

  /**
   * Key URIs round-trip: the parser reads back exactly the parameters a Key URI
   * was written from.
   */
  lemma KeyUriRoundTrip(p: OtpParams)
    requires Encodable(p)
    ensures ParseOtpauthUri(KeyUri(p)) == Some(p)
  {
    KeyUriQuerySafe(p);
    KeyUriLabelSplits(p);
    ParseComposed(p.otpType, KeyUriLabel(p), EncodeQuery(KeyUriFields(p)));
    KeyUriFromParts(p);
  }
}
