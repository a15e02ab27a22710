/**
 * The sensor side: the coordinator's own extraction and parser (a copy of the
 * configuration flow's parser that also records the entry name, with no
 * reference check and no simple-key fallback), the loop that fills the
 * coordinator's data, and the two values a sensor shows: the zero-padded
 * code and its attributes, among them the seconds left in the current period.
 */
module Sensor {
  import opened Wrappers
  import opened PyStr
  import opened UrlParse
  import opened OtpUri
  import opened KeePass
  import opened ConfigFlow

  /** The dict `_parse_otpauth_uri` of the sensor returns. */
  datatype SensorOtp = SensorOtp(
    entryName: string,
    secret: string,
    issuer: Option<string>,
    account: string,
    period: int,
    digits: int,
    algorithm: string,
    otpType: string)

  /** The sensor's `_parse_otpauth_uri(uri, entry_name)`, step by step as the sensor writes it. */
  function SensorParseOtpauthUri(uri: string, entryName: string): (r: Option<SensorOtp>)
    ensures r.Some? ==> r.value.entryName == entryName && r.value.secret != ""
    ensures r.Some? ==> r.value.otpType == "totp" || r.value.otpType == "hotp"
  {
    var parsed := UrlSplit(uri);
    if parsed.scheme != "otpauth" then None
    else if parsed.netloc != "totp" && parsed.netloc != "hotp" then None
    else
      var (labelIssuer, account) := SplitLabel(LStripChar(parsed.path, '/'));
      var params := ParseQsl(parsed.query);
      var secret := FirstValue(params, "secret");
      if secret.None? || secret.value == "" then None
      else
        var period := ParseInt(FirstValue(params, "period").GetOr("30"));
        var digits := ParseInt(FirstValue(params, "digits").GetOr("6"));
        if period.None? || digits.None? then None
        else
          var algorithm := FirstValue(params, "algorithm").GetOr("SHA1");
          var issuer := if FirstValue(params, "issuer").Some? then FirstValue(params, "issuer") else labelIssuer;
          Some(SensorOtp(entryName, secret.value, issuer, account, period.value, digits.value, algorithm, parsed.netloc))
  }

  /** The configuration-flow record with the entry name added. */
  function WithEntryName(p: OtpParams, entryName: string): SensorOtp {
    SensorOtp(entryName, p.secret, p.issuer, p.account, p.period, p.digits, p.algorithm, p.otpType)
  }

  /**
   * The two copies of the parser agree: the sensor's accepts exactly the URIs
   * the configuration flow's accepts, with the same fields and the entry name.
   */
  lemma SensorParserAgrees(uri: string, entryName: string)
    ensures SensorParseOtpauthUri(uri, entryName).Some? <==> ParseOtpauthUri(uri).Some?
    ensures ParseOtpauthUri(uri).Some? ==>
              SensorParseOtpauthUri(uri, entryName) == Some(WithEntryName(ParseOtpauthUri(uri).value, entryName))
  {
  }

  /**
   * The sensor's custom-property loop: the first property with an OTP name
   * ends the loop with its value, reference or not.
   */
  function SensorPropertyValue(props: seq<(string, string)>): (r: string)
    ensures r != "" ==> exists i :: 0 <= i < |props| && IsOtpPropertyName(props[i].0) && props[i].1 == r
  {
    if |props| == 0 then ""
    else if IsOtpPropertyName(props[0].0) then props[0].1
    else SensorPropertyValue(props[1..])
  }

  /**
   * The OTP value the sensor reads: the property value when not empty, else
   * the `otp` field; a reference is not filtered out.
   */
  function SensorOtpValue(e: Entry): (r: string)
    ensures r == "" <==> SensorPropertyValue(e.customProperties) == "" && e.otp == ""
    ensures r != e.otp ==> exists i :: 0 <= i < |e.customProperties| && IsOtpPropertyName(e.customProperties[i].0)
                                       && e.customProperties[i].1 == r
  {
    var fromProperty := SensorPropertyValue(e.customProperties);
    if fromProperty != "" then fromProperty else e.otp
  }

  /** The sensor's `_extract_otp_from_entry`: only an `otpauth://` value is parsed; anything else gives None. */
  function SensorExtract(e: Entry): (r: Option<SensorOtp>)
    ensures r.Some? ==> StartsWith(SensorOtpValue(e), "otpauth://")
  {
    var value := SensorOtpValue(e);
    if value == "" then None
    else if !StartsWith(value, "otpauth://") then None
    else SensorParseOtpauthUri(value, e.title)
  }

  /** A value that is not an otpauth URI, a bare base32 key among them, yields no sensor. */
  lemma NoSimpleKeyOnSensor(e: Entry)
    requires !StartsWith(SensorOtpValue(e), "otpauth://")
    ensures SensorExtract(e) == None
  {
  }

  /** Without reference values, the two property loops pick the same value. */
  lemma {:induction false} PropertyLoopsAgree(props: seq<(string, string)>)
    requires forall i :: 0 <= i < |props| ==> !IsReference(props[i].1)
    ensures SensorPropertyValue(props) == OtpPropertyValue(props)
  {
    if |props| > 0 {
      assert !IsReference(props[0].1);
      var tail := props[1..];
      forall i | 0 <= i < |tail| ensures !IsReference(tail[i].1) {
        assert tail[i] == props[i + 1];
      }
      PropertyLoopsAgree(tail);
    }
  }

  /**
   * For an entry without references whose OTP value is an otpauth URI, the
   * sensor creates a sensor exactly when the configuration flow imports a
   * record, and with the same OTP fields.
   */
  lemma SensorMatchesImport(e: Entry)
    requires !HasReferences(e) && !IsReference(e.otp)
    requires StartsWith(OtpValue(e), "otpauth://")
    ensures SensorExtract(e).Some? <==> ExtractOtpFromEntry(e).Found?
    ensures ExtractOtpFromEntry(e).Found? ==>
              SensorExtract(e) == Some(WithEntryName(ExtractOtpFromEntry(e).data.params, e.title))
  {
    assert !AnyPropertyIsReference(e.customProperties);
    PropertyLoopsAgree(e.customProperties);
    assert SensorOtpValue(e) == OtpValue(e);
    UriValueParsed(e, SanitizedAccount(e.title));
    SensorParserAgrees(OtpValue(e), e.title);
  }

  // ----- the coordinator's data -----

  /** A value of the coordinator's data: the parsed dict with `entry_uuid` and `entity_id_suffix` added. */
  datatype SensorRecord = SensorRecord(otp: SensorOtp, entryUuid: string, entityIdSuffix: string)

  /**
   * The data after the loop has read `entries`, for an extraction `extract`
   * (the coordinator's is `SensorExtract`). Home Assistant's `slugify` is a
   * parameter.
   */
  function Loaded(entries: seq<Entry>, extract: Entry -> Option<SensorOtp>, slugify: string -> string): (m: map<string, SensorRecord>)
    ensures forall k :: k in m ==> m[k].entryUuid == k
  {
    if |entries| == 0 then map[]
    else
      var m := Loaded(entries[..|entries| - 1], extract, slugify);
      var e := entries[|entries| - 1];
      match extract(e)
      case None => m
      case Some(otp) => m[e.uuid := SensorRecord(otp, e.uuid, slugify(e.title))]
  }

  /**
   * `_load_otp_entries` after the database is open: the loop filling
   * `otp_entries`, given the coordinator's extraction (`SensorExtract`).
   */
  method LoadOtpEntries(entries: seq<Entry>, extract: Entry -> Option<SensorOtp>, slugify: string -> string)
    returns (otpEntries: map<string, SensorRecord>)
    ensures otpEntries == Loaded(entries, extract, slugify)
  {
    otpEntries := map[];
    var i := 0;
    while i < |entries|
      invariant 0 <= i <= |entries|
      invariant otpEntries == Loaded(entries[..i], extract, slugify)
    {
      var entry := entries[i];
      assert entries[..i + 1][..i] == entries[..i];
      var otpData := extract(entry);
      if otpData.Some? {
        var entryUuid := entry.uuid;
        otpEntries := otpEntries[entryUuid := SensorRecord(otpData.value, entryUuid, slugify(entry.title))];
      }
      i := i + 1;
    }
    assert entries[..i] == entries;
  }

  /** The data holds a record under `k` exactly when some entry with UUID `k` yields a sensor. */
  lemma {:induction false} LoadedKeys(entries: seq<Entry>, extract: Entry -> Option<SensorOtp>, slugify: string -> string, k: string)
    ensures k in Loaded(entries, extract, slugify) <==>
              exists i :: 0 <= i < |entries| && entries[i].uuid == k && extract(entries[i]).Some?
  {
    if |entries| > 0 {
      var init := entries[..|entries| - 1];
      LoadedKeys(init, extract, slugify, k);
      forall i | 0 <= i < |init| ensures init[i] == entries[i] { }
    }
  }

  /**
   * The record stored under a key carries that key as its `entry_uuid`, and
   * it is the record of the last entry with that UUID that yields a sensor.
   */
  lemma {:induction false} LastWriterWins(entries: seq<Entry>, extract: Entry -> Option<SensorOtp>, slugify: string -> string, k: string)
    requires k in Loaded(entries, extract, slugify)
    ensures var m := Loaded(entries, extract, slugify);
            m[k].entryUuid == k
            && exists i :: && 0 <= i < |entries| && entries[i].uuid == k
                           && extract(entries[i]) == Some(m[k].otp)
                           && m[k].entityIdSuffix == slugify(entries[i].title)
                           && forall j :: i < j < |entries| && entries[j].uuid == k ==> extract(entries[j]).None?
  {
    var init := entries[..|entries| - 1];
    var last := entries[|entries| - 1];
    var m := Loaded(entries, extract, slugify);
    if last.uuid == k && extract(last).Some? {
      assert m[k] == SensorRecord(extract(last).value, k, slugify(last.title));
    } else {
      LastWriterWins(init, extract, slugify, k);
      var i :| && 0 <= i < |init| && init[i].uuid == k
               && extract(init[i]) == Some(m[k].otp)
               && m[k].entityIdSuffix == slugify(init[i].title)
               && forall j :: i < j < |init| && init[j].uuid == k ==> extract(init[j]).None?;
      assert entries[i] == init[i];
      forall j | i < j < |entries| && entries[j].uuid == k ensures extract(entries[j]).None? {
        if j < |init| {
          assert entries[j] == init[j];
        }
      }
    }
  }

  // ----- what a sensor shows -----

  /**
   * `native_value`: the current code of the entry's secret, left-padded with
   * zeros to `digits` characters, or None when the entry is gone from the
   * data or the code cannot be computed. `totpNow(secret, digits, period)` is
   * `pyotp.TOTP(...).now()` at the current time, None when it raises.
   */
  function NativeValue(data: map<string, SensorRecord>, uuid: string,
                       totpNow: (string, int, int) -> Option<string>): (r: Option<string>)
    ensures r.Some? <==> uuid in data && totpNow(data[uuid].otp.secret, data[uuid].otp.digits, data[uuid].otp.period).Some?
  {
    if uuid !in data then None
    else
      var otp := data[uuid].otp;
      match totpNow(otp.secret, otp.digits, otp.period)
      case None => None
      case Some(code) => Some(ZFill(code, otp.digits))
  }

  /** A digit code is shown with at least `digits` characters: zeros, then the code itself. */
  lemma NativeValuePadded(data: map<string, SensorRecord>, uuid: string,
                          totpNow: (string, int, int) -> Option<string>)
    requires uuid in data
    requires var otp := data[uuid].otp;
             var code := totpNow(otp.secret, otp.digits, otp.period);
             code.Some? && forall i :: 0 <= i < |code.value| ==> IsAsciiDigit(code.value[i])
    ensures var otp := data[uuid].otp;
            var code := totpNow(otp.secret, otp.digits, otp.period).value;
            var shown := NativeValue(data, uuid, totpNow).value;
            && |shown| >= otp.digits && |shown| >= |code|
            && shown[|shown| - |code|..] == code
            && forall i :: 0 <= i < |shown| - |code| ==> shown[i] == '0'
  {
    var otp := data[uuid].otp;
    var code := totpNow(otp.secret, otp.digits, otp.period).value;
    ZFillShape(code, otp.digits);
    if |code| > 0 {
      assert IsAsciiDigit(code[0]);
    }
  }

  /**
   * `period - (int(time.time()) % period)`, with Python's floor remainder: in
   * `1..period` for a positive period and in `period..-1` for a negative one.
   */
  function TimeRemaining(period: int, now: int): (r: int)
    requires period != 0
    ensures period > 0 ==> 1 <= r <= period
    ensures period < 0 ==> period <= r <= -1
  {
    period - FloorMod(now, period)
  }

  /**
   * For a positive period the remaining time is the distance from `now` to the
   * next multiple of the period after it (a whole period at a boundary).
   */
  lemma TimeRemainingBounds(period: int, now: int)
    requires period > 0
    ensures now + TimeRemaining(period, now) == (now / period + 1) * period
  {
    assert now == (now / period) * period + now % period;
  }

  /** An attribute value: text or a number. */
  datatype Attribute = Text(s: string) | Number(n: int)

  /**
   * `extra_state_attributes` at time `now`: the empty map when the entry is
   * gone, else the entry name, the time remaining and the period, with the
   * issuer and the account only when they are not empty. A zero period makes
   * the remainder raise, which the property does not catch: None.
   */
  function ExtraStateAttributes(data: map<string, SensorRecord>, uuid: string, now: int): (r: Option<map<string, Attribute>>)
    ensures uuid !in data ==> r == Some(map[])
    ensures uuid in data ==> (r.None? <==> data[uuid].otp.period == 0)
  {
    if uuid !in data then Some(map[])
    else
      var otp := data[uuid].otp;
      if otp.period == 0 then None
      else
        var base := map["entry_name" := Text(otp.entryName),
                         "time_remaining" := Number(TimeRemaining(otp.period, now)),
                         "period" := Number(otp.period)];
        var withIssuer := if otp.issuer.Some? && otp.issuer.value != "" then base["issuer" := Text(otp.issuer.value)] else base;
        Some(if otp.account != "" then withIssuer["account" := Text(otp.account)] else withIssuer)
  }

  /**
   * For an entry in the data with a non-zero period, the attributes always
   * hold the entry name, the time remaining and the period; `issuer` is
   * present exactly when the issuer is not empty, `account` exactly when the
   * account is not empty, and there are no other keys.
   */
  lemma AttributesExactly(data: map<string, SensorRecord>, uuid: string, now: int)
    requires uuid in data && data[uuid].otp.period != 0
    ensures var otp := data[uuid].otp;
            var attrs := ExtraStateAttributes(data, uuid, now).value;
            && attrs["entry_name"] == Text(otp.entryName)
            && attrs["time_remaining"] == Number(TimeRemaining(otp.period, now))
            && attrs["period"] == Number(otp.period)
            && ("issuer" in attrs <==> otp.issuer.Some? && otp.issuer.value != "")
            && ("issuer" in attrs ==> attrs["issuer"] == Text(otp.issuer.value))
            && ("account" in attrs <==> otp.account != "")
            && ("account" in attrs ==> attrs["account"] == Text(otp.account))
            && attrs.Keys <= {"entry_name", "time_remaining", "period", "issuer", "account"}
  {
  }
}
