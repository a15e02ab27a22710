/**
 * The import pass of `validate_input`: one pass over the database entries
 * that keeps the first record for each distinct secret under the entry's
 * UUID and writes an imported/skipped ledger with a reason per skipped entry.
 *
 * `ImportFold` is the pass as a function of the entries read so far;
 * `ImportEntries` is the loop itself, proved equal to it.
 */
module ImportPass {
  import opened Wrappers
  import opened KeePass
  import opened ConfigFlow

  /** One value of `otp_secrets`: what the integration stores for an imported entry. */
  datatype StoredSecret = StoredSecret(
    secret: string,
    name: string,
    issuer: Option<string>,
    account: string,
    period: int,
    digits: int,
    algorithm: string,
    url: Option<string>,
    username: Option<string>)

  /** One item of `import_stats["skipped"]`. */
  datatype SkippedItem = SkippedItem(name: string, reason: string)

  /**
   * The state of the pass: the stored records by entry UUID, the secrets seen
   * so far (the code keeps their SHA-256 digests, an injective stand-in), and
   * the two ledger lists.
   */
  datatype Ledger = Ledger(
    secrets: map<string, StoredSecret>,
    seen: set<string>,
    imported: seq<string>,
    skipped: seq<SkippedItem>)

  /** `import_stats` as `validate_input` returns it. */
  datatype ImportStats = ImportStats(imported: seq<string>, skipped: seq<SkippedItem>, totalEntries: nat)

  /** What `validate_input` returns after a successful pass. */
  datatype ImportOutcome = ImportOutcome(secrets: map<string, StoredSecret>, stats: ImportStats)

  const EmptyLedger := Ledger(map[], {}, [], [])

  /** `reason_map`: the ledger text of each extraction error. */
  function ReasonText(err: ExtractError): (t: string)
    ensures t != "Duplicate" && t != "Unknown error"
  {
    match err
    case ContainsFieldReferences => "Contains field references"
    case SimpleKeyNotSupported => "Simple key format not supported"
    case NoSecretFound => "No secret found"
    case InvalidUriFormat => "Invalid URI format"
  }

  /** The record stored for an entry whose extraction found `d`. */
  function Stored(e: Entry, d: OtpData): StoredSecret {
    StoredSecret(d.params.secret, e.title, d.params.issuer, d.params.account,
                 d.params.period, d.params.digits, d.params.algorithm, d.url, d.username)
  }

  /** One iteration of the loop over the entries. */
  function Step(l: Ledger, e: Entry, extract: Entry -> Extracted): Ledger {
    match extract(e)
    case NoOtp => l
    case Skipped(err) => l.(skipped := l.skipped + [SkippedItem(e.title, ReasonText(err))])
    case Found(d) =>
      if d.params.secret in l.seen then l.(skipped := l.skipped + [SkippedItem(e.title, "Duplicate")])
      else Ledger(l.secrets[e.uuid := Stored(e, d)], l.seen + {d.params.secret}, l.imported + [e.title], l.skipped)
  }

  /**
   * A step only appends: the ledger lists, the seen secrets and the stored
   * UUIDs of before are kept, at most one ledger line is added, and an entry
   * without OTP data changes nothing.
   */
  lemma StepAppends(l: Ledger, e: Entry, extract: Entry -> Extracted)
    ensures var r := Step(l, e, extract);
            && l.imported <= r.imported && l.skipped <= r.skipped
            && l.seen <= r.seen && l.secrets.Keys <= r.secrets.Keys
            && |r.imported| + |r.skipped| <= |l.imported| + |l.skipped| + 1
            && (extract(e).NoOtp? ==> r == l)
  {
  }

  /** The ledger after the loop has read `entries`. */
  function ImportFold(entries: seq<Entry>, extract: Entry -> Extracted): Ledger {
    if |entries| == 0 then EmptyLedger
    else Step(ImportFold(entries[..|entries| - 1], extract), entries[|entries| - 1], extract)
  }

  /**
   * Each imported name added one new secret to the seen set, and each entry
   * added at most one ledger line.
   */
  lemma {:induction false} FoldLines(entries: seq<Entry>, extract: Entry -> Extracted)
    ensures var l := ImportFold(entries, extract);
            |l.imported| == |l.seen| && |l.imported| + |l.skipped| <= |entries|
  {
    if |entries| > 0 {
      FoldLines(entries[..|entries| - 1], extract);
    }
  }

  /** `validate_input` after the database is open: `no_otp_entries` when nothing was stored. */
  function ValidateResult(entries: seq<Entry>, extract: Entry -> Extracted): (r: Result<ImportOutcome, string>)
    ensures r.Err? ==> r.error == "no_otp_entries"
    ensures r.Ok? ==> |r.value.secrets| > 0 && r.value.stats.totalEntries == |entries|
  {
    var l := ImportFold(entries, extract);
    if |l.secrets| == 0 then Err("no_otp_entries")
    else Ok(ImportOutcome(l.secrets, ImportStats(l.imported, l.skipped, |entries|)))
  }

  /** The loop of `validate_input`, updating the dict, the set and the two lists entry by entry. */
  method ImportEntries(entries: seq<Entry>, extract: Entry -> Extracted) returns (r: Result<ImportOutcome, string>)
    ensures r == ValidateResult(entries, extract)
  {
    var otpSecrets: map<string, StoredSecret> := map[];
    var seenSecrets: set<string> := {};
    var imported: seq<string> := [];
    var skipped: seq<SkippedItem> := [];
    var i := 0;
    while i < |entries|
      invariant 0 <= i <= |entries|
      invariant Ledger(otpSecrets, seenSecrets, imported, skipped) == ImportFold(entries[..i], extract)
    {
      var entry := entries[i];
      assert entries[..i + 1][..i] == entries[..i];
      var otpData := extract(entry);
      match otpData {
        case NoOtp =>
        case Skipped(err) =>
          skipped := skipped + [SkippedItem(entry.title, ReasonText(err))];
        case Found(d) =>
          var secret := d.params.secret;
          if secret in seenSecrets {
            skipped := skipped + [SkippedItem(entry.title, "Duplicate")];
          } else {
            seenSecrets := seenSecrets + {secret};
            otpSecrets := otpSecrets[entry.uuid := Stored(entry, d)];
            imported := imported + [entry.title];
          }
      }
      i := i + 1;
    }
    assert entries[..i] == entries;
    if |otpSecrets| == 0 {
      r := Err("no_otp_entries");
    } else {
      r := Ok(ImportOutcome(otpSecrets, ImportStats(imported, skipped, |entries|)));
    }
  }

  // ----- properties of the pass -----

  /** The entries with OTP data: every one of them lands in exactly one of the two lists. */
  function CountWithOtp(entries: seq<Entry>, extract: Entry -> Extracted): (n: nat)
    ensures n <= |entries|
  {
    if |entries| == 0 then 0
    else CountWithOtp(entries[..|entries| - 1], extract) + (if extract(entries[|entries| - 1]).NoOtp? then 0 else 1)
  }

  /**
   * Every entry with OTP data adds exactly one line to exactly one of the two
   * lists, and an entry without OTP data adds none, so the ledger never
   * lists more entries than the database has.
   */
  lemma {:induction false} LedgerAccounting(entries: seq<Entry>, extract: Entry -> Extracted)
    ensures var l := ImportFold(entries, extract);
            |l.imported| + |l.skipped| == CountWithOtp(entries, extract) <= |entries|
  {
    if |entries| > 0 {
      LedgerAccounting(entries[..|entries| - 1], extract);
    }
  }

  /** The secrets of the entries whose extraction found a record. */
  function FoundSecrets(entries: seq<Entry>, extract: Entry -> Extracted): set<string> {
    if |entries| == 0 then {}
    else
      var last := extract(entries[|entries| - 1]);
      FoundSecrets(entries[..|entries| - 1], extract) + (if last.Found? then {last.data.params.secret} else {})
  }

  /** A secret is in `FoundSecrets` exactly when some entry's extraction found it. */
  lemma {:induction false} FoundSecretsExactly(entries: seq<Entry>, s: string, extract: Entry -> Extracted)
    ensures s in FoundSecrets(entries, extract) <==>
              exists i :: 0 <= i < |entries| && extract(entries[i]).Found?
                                            && extract(entries[i]).data.params.secret == s
  {
    if |entries| > 0 {
      var init := entries[..|entries| - 1];
      FoundSecretsExactly(init, s, extract);
      forall i | 0 <= i < |init| ensures init[i] == entries[i] { }
    }
  }

  /**
   * The seen set holds exactly the secrets found so far, every stored record's
   * secret is in it, and no two stored records share a secret.
   */
  lemma {:induction false} SeenAndKept(entries: seq<Entry>, extract: Entry -> Extracted)
    ensures ImportFold(entries, extract).seen == FoundSecrets(entries, extract)
    ensures var m := ImportFold(entries, extract).secrets;
            forall k :: k in m ==> m[k].secret in ImportFold(entries, extract).seen
    ensures var m := ImportFold(entries, extract).secrets;
            forall k1, k2 :: k1 in m && k2 in m && k1 != k2 ==> m[k1].secret != m[k2].secret
  {
    if |entries| > 0 {
      SeenAndKept(entries[..|entries| - 1], extract);
    }
  }

  /** The stored records have pairwise distinct secrets. */
  lemma KeptSecretsDistinct(entries: seq<Entry>, k1: string, k2: string, extract: Entry -> Extracted)
    requires var m := ImportFold(entries, extract).secrets; k1 in m && k2 in m && k1 != k2
    ensures ImportFold(entries, extract).secrets[k1].secret != ImportFold(entries, extract).secrets[k2].secret
  {
    SeenAndKept(entries, extract);
  }

  /**
   * Entry `i` with a record is skipped as `Duplicate` exactly when an earlier
   * entry's record had the same secret; otherwise it is imported and stored
   * under its UUID.
   */
  lemma DuplicateExactly(entries: seq<Entry>, i: nat, extract: Entry -> Extracted)
    requires i < |entries| && extract(entries[i]).Found?
    ensures var d := extract(entries[i]).data;
            var e := entries[i];
            var before := ImportFold(entries[..i], extract);
            var after := ImportFold(entries[..i + 1], extract);
            var earlier := exists j :: 0 <= j < i && extract(entries[j]).Found?
                                                 && extract(entries[j]).data.params.secret == d.params.secret;
            && (earlier ==> after.secrets == before.secrets && after.imported == before.imported
                            && after.skipped == before.skipped + [SkippedItem(e.title, "Duplicate")])
            && (!earlier ==> after.secrets == before.secrets[e.uuid := Stored(e, d)]
                             && after.imported == before.imported + [e.title] && after.skipped == before.skipped)
  {
    var prefix := entries[..i];
    assert entries[..i + 1][..i] == prefix;
    SeenAndKept(prefix, extract);
    FoundSecretsExactly(prefix, extract(entries[i]).data.params.secret, extract);
    forall j | 0 <= j < i ensures prefix[j] == entries[j] { }
  }

  /** Every UUID the pass stores a record under belongs to one of the entries read. */
  lemma {:induction false} KeysAreUuids(entries: seq<Entry>, extract: Entry -> Extracted)
    ensures forall k :: k in ImportFold(entries, extract).secrets ==> exists i :: 0 <= i < |entries| && entries[i].uuid == k
  {
    if |entries| > 0 {
      var init := entries[..|entries| - 1];
      KeysAreUuids(init, extract);
      forall k | k in ImportFold(entries, extract).secrets
        ensures exists i :: 0 <= i < |entries| && entries[i].uuid == k
      {
        if k in ImportFold(init, extract).secrets {
          var i :| 0 <= i < |init| && init[i].uuid == k;
          assert entries[i].uuid == k;
        } else {
          assert entries[|entries| - 1].uuid == k;
        }
      }
    }
  }

  /** Entry UUIDs are unique within a database. */
  predicate DistinctUuids(entries: seq<Entry>) {
    forall i, j :: 0 <= i < j < |entries| ==> entries[i].uuid != entries[j].uuid
  }

  /** With unique UUIDs, `len(imported)` equals the number of stored records. */
  lemma {:induction false} ImportedCountsRecords(entries: seq<Entry>, extract: Entry -> Extracted)
    requires DistinctUuids(entries)
    ensures |ImportFold(entries, extract).imported| == |ImportFold(entries, extract).secrets|
  {
    if |entries| > 0 {
      var init := entries[..|entries| - 1];
      var last := entries[|entries| - 1];
      assert DistinctUuids(init);
      ImportedCountsRecords(init, extract);
      KeysAreUuids(init, extract);
      forall i | 0 <= i < |init| ensures init[i].uuid != last.uuid {
        assert init[i] == entries[i];
      }
    }
  }

  /**
   * With unique UUIDs, later entries never overwrite a stored record: the
   * record kept for a secret is the one of its first entry.
   */
  lemma {:induction false} RecordKept(entries: seq<Entry>, i: nat, n: nat, extract: Entry -> Extracted)
    requires DistinctUuids(entries) && i < n <= |entries|
    requires ImportFold(entries[..i + 1], extract).secrets == ImportFold(entries[..i], extract).secrets[entries[i].uuid := ExtractStored(entries[i], extract)]
    ensures entries[i].uuid in ImportFold(entries[..n], extract).secrets
    ensures ImportFold(entries[..n], extract).secrets[entries[i].uuid] == ExtractStored(entries[i], extract)
    decreases n
  {
    if n > i + 1 {
      RecordKept(entries, i, n - 1, extract);
      var prefix := entries[..n];
      assert prefix[..n - 1] == entries[..n - 1];
      assert ImportFold(prefix, extract) == Step(ImportFold(entries[..n - 1], extract), entries[n - 1], extract);
      assert entries[n - 1].uuid != entries[i].uuid;
      StepKeepsOtherKeys(ImportFold(entries[..n - 1], extract), entries[n - 1], extract, entries[i].uuid);
    }
  }

  /** A step changes the stored record of its own entry's UUID only. */
  lemma StepKeepsOtherKeys(l: Ledger, e: Entry, extract: Entry -> Extracted, k: string)
    requires k in l.secrets && k != e.uuid
    ensures k in Step(l, e, extract).secrets && Step(l, e, extract).secrets[k] == l.secrets[k]
  {
  }

  /** The record an entry's extraction yields, as the pass would store it. */
  function ExtractStored(e: Entry, extract: Entry -> Extracted): StoredSecret {
    match extract(e)
    case Found(d) => Stored(e, d)
    case _ => StoredSecret("", "", None, "", 0, 0, "", None, None)
  }

  /**
   * With unique UUIDs, the first entry carrying a secret is the one whose
   * record ends up stored, under its own UUID.
   */
  lemma FirstOccurrenceKept(entries: seq<Entry>, i: nat, extract: Entry -> Extracted)
    requires DistinctUuids(entries) && i < |entries| && extract(entries[i]).Found?
    requires forall j :: 0 <= j < i && extract(entries[j]).Found?
                         ==> extract(entries[j]).data.params.secret != extract(entries[i]).data.params.secret
    ensures ValidateResult(entries, extract).Ok?
    ensures entries[i].uuid in ValidateResult(entries, extract).value.secrets
    ensures ValidateResult(entries, extract).value.secrets[entries[i].uuid] == ExtractStored(entries[i], extract)
  {
    NoOtpEntriesExactly(entries, extract);
    DuplicateExactly(entries, i, extract);
    RecordKept(entries, i, |entries|, extract);
    assert entries[..|entries|] == entries;
  }

  /** The pass fails with `no_otp_entries` exactly when no entry's extraction found a record. */
  lemma {:induction false} NoOtpEntriesExactly(entries: seq<Entry>, extract: Entry -> Extracted)
    ensures ValidateResult(entries, extract).Err? <==> forall i :: 0 <= i < |entries| ==> !extract(entries[i]).Found?
    ensures ValidateResult(entries, extract).Err? ==> ValidateResult(entries, extract).error == "no_otp_entries"
  {
    if exists i :: 0 <= i < |entries| && extract(entries[i]).Found? {
      var i :| 0 <= i < |entries| && extract(entries[i]).Found?;
      NonEmptyOnceFound(entries, i, |entries|, extract);
      assert entries[..|entries|] == entries;
    } else {
      NothingStored(entries, extract);
    }
  }

  /** Once an entry with a record has been read, the stored map is never empty again. */
  lemma {:induction false} NonEmptyOnceFound(entries: seq<Entry>, i: nat, n: nat, extract: Entry -> Extracted)
    requires i < n <= |entries| && extract(entries[i]).Found?
    ensures |ImportFold(entries[..n], extract).secrets| > 0
    decreases n
  {
    var prefix := entries[..n];
    assert prefix[..n - 1] == entries[..n - 1];
    if n == i + 1 {
      SeenAndKept(entries[..i], extract);
      var s := extract(entries[i]).data.params.secret;
      var before := ImportFold(entries[..i], extract);
      if s in before.seen {
        FoundSecretsExactly(entries[..i], s, extract);
        var j :| 0 <= j < i && extract(entries[..i][j]).Found?
                            && extract(entries[..i][j]).data.params.secret == s;
        NonEmptyOnceFound(entries, j, i, extract);
      }
    } else {
      NonEmptyOnceFound(entries, i, n - 1, extract);
    }
  }

  /** Without any record found, nothing is stored. */
  lemma {:induction false} NothingStored(entries: seq<Entry>, extract: Entry -> Extracted)
    requires forall i :: 0 <= i < |entries| ==> !extract(entries[i]).Found?
    ensures ImportFold(entries, extract).secrets == map[]
  {
    if |entries| > 0 {
      var init := entries[..|entries| - 1];
      forall i | 0 <= i < |init| ensures !extract(init[i]).Found? {
        assert init[i] == entries[i];
      }
      NothingStored(init, extract);
    }
  }
}
