/**
 * The parts of Python's `urllib.parse` that the otpauth parser reads:
 * `urlsplit` (which `urlparse` calls; `urlparse` splits `;params` off the path
 * only for schemes other than `otpauth`) and `parse_qsl`, whose pairs
 * `parse_qs` groups by name. Percent-decoding is not modelled: a query
 * name or value keeps its `%XX` sequences.
 */
module UrlParse {
  import opened Wrappers
  import opened PyStr

  /** The five components `urlsplit` returns. */
  datatype SplitUrl = SplitUrl(scheme: string, netloc: string, path: string, query: string, fragment: string)

  /** The characters removed from the front of a URL (C0 controls and space). */
  predicate IsC0OrSpace(c: char) { c <= ' ' }

  function LStripC0(s: string): (r: string)
    ensures |r| <= |s| && r == s[|s| - |r|..]
    ensures forall i :: 0 <= i < |s| - |r| ==> IsC0OrSpace(s[i])
    ensures |r| > 0 ==> !IsC0OrSpace(r[0])
  {
    if |s| > 0 && IsC0OrSpace(s[0]) then LStripC0(s[1..]) else s
  }

  /** The characters removed anywhere in a URL. */
  predicate IsUnsafe(c: char) { c == '\t' || c == '\r' || c == '\n' }

  /** No tab and no line break. */
  predicate NoUnsafe(s: string) { '\t' !in s && '\r' !in s && '\n' !in s }

  /**
   * The URL with every tab, carriage return and line feed removed: it holds
   * exactly the other characters of `s` (`RemoveUnsafeAppend` adds that their
   * order is kept), and text without those characters is unchanged.
   */
  function RemoveUnsafe(s: string): (r: string)
    ensures |r| <= |s|
    ensures forall c :: c in r <==> c in s && !IsUnsafe(c)
    ensures NoUnsafe(s) ==> r == s
  {
    if |s| == 0 then ""
    else (if IsUnsafe(s[0]) then "" else [s[0]]) + RemoveUnsafe(s[1..])
  }

  /** Removal works piece by piece: what is kept of `a + b` is what is kept of `a`, then what is kept of `b`. */
  lemma {:induction false} RemoveUnsafeAppend(a: string, b: string)
    ensures RemoveUnsafe(a + b) == RemoveUnsafe(a) + RemoveUnsafe(b)
    decreases |a|
  {
    if |a| > 0 {
      RemoveUnsafeFirst(a, b);
      RemoveUnsafeAppend(a[1..], b);
    } else {
      assert a + b == b;
    }
  }

  /** The first character of `a` is kept or dropped on its own, in `a` and in `a + b` alike. */
  lemma RemoveUnsafeFirst(a: string, b: string)
    requires |a| > 0
    ensures var kept := if IsUnsafe(a[0]) then "" else [a[0]];
            && RemoveUnsafe(a + b) == kept + RemoveUnsafe(a[1..] + b)
            && RemoveUnsafe(a) == kept + RemoveUnsafe(a[1..])
  {
    assert (a + b)[0] == a[0] && (a + b)[1..] == a[1..] + b;
  }

  /** `scheme_chars` of `urllib.parse`. */
  predicate IsSchemeChar(c: char) {
    IsAsciiAlpha(c) || IsAsciiDigit(c) || c == '+' || c == '-' || c == '.'
  }

  /**
   * A scheme ends at index `i`: `url[i]` is a `:` and the text before it is an
   * ASCII letter followed by scheme characters. As `:` is not a scheme
   * character, such an `i` is the first `:` of the URL.
   */
  predicate SchemeEnd(url: string, i: nat) {
    0 < i < |url| && url[i] == ':' && IsAsciiAlpha(url[0]) && forall j :: 0 <= j < i ==> IsSchemeChar(url[j])
  }

  /**
   * The scheme, lower-cased, and the rest after its `:`, when the text before
   * the first `:` is a well-formed scheme; otherwise no scheme and the whole URL.
   */
  function SplitScheme(url: string): (r: (string, string))
    ensures r.0 == "" ==> r.1 == url
    ensures r.0 != "" ==> |r.0| < |url| && url == url[..|r.0|] + ":" + r.1 && Lower(url[..|r.0|]) == r.0
    ensures r.0 != "" <==> exists i: nat :: SchemeEnd(url, i)
    ensures forall i: nat :: SchemeEnd(url, i) ==> r == (Lower(url[..i]), url[i + 1..])
  {
    var i := FindChar(url, ':');
    assert forall k: nat :: SchemeEnd(url, k) ==> k == i;
    if i > 0 && IsAsciiAlpha(url[0]) && forall j :: 0 <= j < i ==> IsSchemeChar(url[j]) then
      assert url == url[..i] + ":" + url[i + 1..];
      assert SchemeEnd(url, i);
      (Lower(url[..i]), url[i + 1..])
    else ("", url)
  }

  /** `_splitnetloc(url, 2)`: the authority after `//` runs to the first `/`, `?` or `#`. */
  function SplitNetloc(afterSlashes: string): (r: (string, string))
    ensures afterSlashes == r.0 + r.1
    ensures '/' !in r.0 && '?' !in r.0 && '#' !in r.0
    ensures |r.1| > 0 ==> r.1[0] in {'/', '?', '#'}
  {
    var delim := FindAny(afterSlashes, {'/', '?', '#'});
    assert afterSlashes == afterSlashes[..delim] + afterSlashes[delim..];
    (afterSlashes[..delim], afterSlashes[delim..])
  }

  /** The authority, when the rest of the URL starts with `//`, and what follows it. */
  function SplitAuthority(rest: string): (r: (string, string))
    ensures '/' !in r.0 && '?' !in r.0 && '#' !in r.0
  {
    if StartsWith(rest, "//") then SplitNetloc(rest[2..]) else ("", rest)
  }

  /** The fragment after the first `#`, then the query after the first `?`, leaving the path. */
  function SplitPathQueryFragment(scheme: string, netloc: string, afterNetloc: string): (r: SplitUrl)
    ensures r.scheme == scheme && r.netloc == netloc
    ensures '#' !in r.path && '?' !in r.path && '#' !in r.query
  {
    var (beforeFragment, fragment) := if '#' in afterNetloc then SplitOnce(afterNetloc, '#') else (afterNetloc, "");
    var (path, query) := if '?' in beforeFragment then SplitOnce(beforeFragment, '?') else (beforeFragment, "");
    SplitUrl(scheme, netloc, path, query, fragment)
  }

  /** `urlsplit(url)` with fragments allowed. */
  function UrlSplit(url: string): (r: SplitUrl)
    ensures '/' !in r.netloc && '?' !in r.netloc && '#' !in r.netloc
    ensures '#' !in r.path && '?' !in r.path && '#' !in r.query
  {
    SplitCleaned(RemoveUnsafe(LStripC0(url)))
  }

  /** The split of a URL once leading control characters and spaces, tabs and line breaks are gone. */
  function SplitCleaned(u: string): (r: SplitUrl)
    ensures '/' !in r.netloc && '?' !in r.netloc && '#' !in r.netloc
    ensures '#' !in r.path && '?' !in r.path && '#' !in r.query
  {
    var (scheme, rest) := SplitScheme(u);
    var (netloc, afterNetloc) := SplitAuthority(rest);
    SplitPathQueryFragment(scheme, netloc, afterNetloc)
  }

  /**
   * `tail` is `r`'s path, then `?` and its query when there is one, then `#` and
   * its fragment when there is one. The path holds neither `?` nor `#` and the
   * query no `#`: the path ends at the first `?` or `#`, and the fragment starts
   * after the first `#`.
   */
  predicate TailSplit(tail: string, r: SplitUrl) {
    && '?' !in r.path && '#' !in r.path && '#' !in r.query
    && (|| tail == r.path + "?" + r.query + "#" + r.fragment
        || (r.fragment == "" && tail == r.path + "?" + r.query)
        || (r.query == "" && tail == r.path + "#" + r.fragment)
        || (r.query == "" && r.fragment == "" && tail == r.path))
  }

  /** What follows the authority is split as `TailSplit` describes. */
  lemma PathQueryFragmentSplit(scheme: string, netloc: string, afterNetloc: string)
    ensures TailSplit(afterNetloc, SplitPathQueryFragment(scheme, netloc, afterNetloc))
  {
  }

  /**
   * `rest`, the URL after its scheme, split into `r`'s netloc and the text
   * after it: after `//` the netloc is the longest prefix without `/`, `?` or
   * `#`, and without `//` it is empty; then path, query and fragment as
   * `TailSplit` describes.
   */
  ghost predicate RestSplit(rest: string, r: SplitUrl) {
    && (StartsWith(rest, "//") ==>
          && '/' !in r.netloc && '?' !in r.netloc && '#' !in r.netloc
          && exists tail :: NetlocThen(rest, r.netloc, tail) && TailSplit(tail, r))
    && (!StartsWith(rest, "//") ==> r.netloc == "" && TailSplit(rest, r))
  }

  /** `rest` is `//`, the netloc, and a `tail` that is empty or starts with `/`, `?` or `#`. */
  predicate NetlocThen(rest: string, netloc: string, tail: string) {
    rest == "//" + netloc + tail && (tail == "" || tail[0] in {'/', '?', '#'})
  }

  /** The text after the scheme is split as `RestSplit` describes. */
  lemma AuthoritySplit(scheme: string, rest: string)
    ensures var (netloc, afterNetloc) := SplitAuthority(rest);
            RestSplit(rest, SplitPathQueryFragment(scheme, netloc, afterNetloc))
  {
    if StartsWith(rest, "//") {
      NetlocSplit(scheme, rest);
      assert SplitAuthority(rest) == SplitNetloc(rest[2..]);
    } else {
      PathQueryFragmentSplit(scheme, "", rest);
    }
  }

  /** After `//`, the netloc and the text after it are split as `RestSplit` describes. */
  lemma NetlocSplit(scheme: string, rest: string)
    requires StartsWith(rest, "//")
    ensures var n := SplitNetloc(rest[2..]);
            RestSplit(rest, SplitPathQueryFragment(scheme, n.0, n.1))
  {
    var n := SplitNetloc(rest[2..]);
    PathQueryFragmentSplit(scheme, n.0, n.1);
    NetlocThenHolds(rest);
  }

  /** After `//`, the netloc runs to the first `/`, `?` or `#`. */
  lemma NetlocThenHolds(rest: string)
    requires StartsWith(rest, "//")
    ensures var n := SplitNetloc(rest[2..]);
            NetlocThen(rest, n.0, n.1)
  {
    assert rest == rest[..2] + rest[2..];
  }

  /**
   * `urlsplit` in full, on the URL `u` left once control characters and spaces
   * are stripped from its front and tabs and line breaks removed: the scheme is
   * `SplitScheme`'s, and what follows it is split as `RestSplit` describes.
   */
  lemma UrlSplitExactly(url: string)
    ensures var u := RemoveUnsafe(LStripC0(url));
            && UrlSplit(url).scheme == SplitScheme(u).0
            && RestSplit(SplitScheme(u).1, UrlSplit(url))
  {
    var u := RemoveUnsafe(LStripC0(url));
    AuthoritySplit(SplitScheme(u).0, SplitScheme(u).1);
  }

  /**
   * `TailSplit` leaves one choice: any path, query and fragment that make up
   * `tail` in that way are the ones `urlsplit` takes from it.
   */
  lemma TailSplitExactly(tail: string, r: SplitUrl)
    requires TailSplit(tail, r)
    ensures SplitPathQueryFragment(r.scheme, r.netloc, tail) == r
  {
    if tail == r.path + "?" + r.query + "#" + r.fragment {
      var before := r.path + "?" + r.query;
      assert tail == before + ['#'] + r.fragment;
      SplitOnceAt(before, '#', r.fragment);
      SplitOnceAt(r.path, '?', r.query);
    } else if r.fragment == "" && tail == r.path + "?" + r.query {
      assert '#' !in tail;
      SplitOnceAt(r.path, '?', r.query);
    } else if r.query == "" && tail == r.path + "#" + r.fragment {
      SplitOnceAt(r.path, '#', r.fragment);
    }
  }

  /**
   * Tabs and line breaks are removed before anything else is read: a URL that
   * starts with a visible character splits as the same URL without them.
   */
  lemma UrlSplitIgnoresUnsafe(url: string)
    requires |url| > 0 && !IsC0OrSpace(url[0])
    ensures UrlSplit(RemoveUnsafe(url)) == UrlSplit(url)
  {
    CleanedTwice(url);
  }

  /** Cleaning a URL that starts with a visible character a second time changes nothing. */
  lemma CleanedTwice(url: string)
    requires |url| > 0 && !IsC0OrSpace(url[0])
    ensures RemoveUnsafe(LStripC0(RemoveUnsafe(url))) == RemoveUnsafe(LStripC0(url))
  {
    var v := RemoveUnsafe(url);
    assert v == [url[0]] + RemoveUnsafe(url[1..]);
    assert NoUnsafe(v);
  }

  /** `parse_qsl` reads `+` as a space before percent-decoding. */
  function PlusToSpace(s: string): string {
    ReplaceChar(s, '+', ' ')
  }

  /**
   * One `&`-separated field of a query: `name=value` split at the first `=`.
   * A field without `=` or with an empty value is dropped (`keep_blank_values`
   * is false).
   */
  function QueryField(field: string): (r: Option<(string, string)>)
    ensures r.Some? ==> r.value.1 != ""
  {
    if '=' !in field then None
    else
      var (name, value) := SplitOnce(field, '=');
      var k := |name|;
      assert field[k] == '=' && field[..k] == name && field[k + 1..] == value;
      if value == "" then None else Some((PlusToSpace(name), PlusToSpace(value)))
  }

  function CollectFields(fields: seq<string>): (pairs: seq<(string, string)>)
    ensures |pairs| <= |fields|
    ensures forall i :: 0 <= i < |pairs| ==> pairs[i].1 != ""
  {
    if |fields| == 0 then []
    else
      var rest := CollectFields(fields[1..]);
      match QueryField(fields[0])
      case None => rest
      case Some(p) => [p] + rest
  }

  /** `parse_qsl(query)`: the non-blank `name=value` fields in order, separated by `&`. */
  function ParseQsl(query: string): (pairs: seq<(string, string)>)
    ensures forall i :: 0 <= i < |pairs| ==> pairs[i].1 != ""
  {
    if query == "" then [] else CollectFields(SplitAll(query, '&'))
  }

  /** `parse_qs(query).get(key, [None])[0]`: the value of the first field named `key`. */
  function FirstValue(pairs: seq<(string, string)>, key: string): Option<string> {
    if |pairs| == 0 then None
    else if pairs[0].0 == key then Some(pairs[0].1)
    else FirstValue(pairs[1..], key)
  }

  /**
   * The lookup finds nothing exactly when no pair carries the name, and otherwise
   * the value of a pair with that name that no earlier pair shares.
   */
  lemma {:induction false} FirstValueSpec(pairs: seq<(string, string)>, key: string)
    ensures FirstValue(pairs, key).None? <==> forall i :: 0 <= i < |pairs| ==> pairs[i].0 != key
    ensures FirstValue(pairs, key).Some? ==>
              exists i :: (0 <= i < |pairs| && pairs[i] == (key, FirstValue(pairs, key).value)
                           && forall j :: 0 <= j < i ==> pairs[j].0 != key)
  {
    if |pairs| > 0 && pairs[0].0 != key {
      var tail := pairs[1..];
      FirstValueSpec(tail, key);
      var r := FirstValue(tail, key);
      if r.None? {
        forall i | 0 <= i < |pairs| ensures pairs[i].0 != key {
          if i > 0 { assert pairs[i] == tail[i - 1]; }
        }
      } else {
        var i :| 0 <= i < |tail| && tail[i] == (key, r.value) && forall j :: 0 <= j < i ==> tail[j].0 != key;
        assert pairs[i + 1] == (key, r.value);
        forall j | 0 <= j < i + 1 ensures pairs[j].0 != key {
          if j > 0 { assert pairs[j] == tail[j - 1]; }
        }
        assert tail[i].0 == key;
      }
    } else if |pairs| > 0 {
      assert pairs[0] == (key, FirstValue(pairs, key).value);
    }
  }

  /** A repeated parameter keeps its first value: later fields never change the answer. */
  lemma {:induction false} FirstValueWins(pairs: seq<(string, string)>, later: seq<(string, string)>, key: string)
    requires FirstValue(pairs, key).Some?
    ensures FirstValue(pairs + later, key) == FirstValue(pairs, key)
  {
    if pairs[0].0 != key {
      assert (pairs + later)[1..] == pairs[1..] + later;
      FirstValueWins(pairs[1..], later, key);
    }
  }

  /** Appending a field whose name is already present changes no lookup. */
  lemma FirstValueAppendPresent(pairs: seq<(string, string)>, name: string, value: string, key: string)
    requires FirstValue(pairs, name).Some?
    ensures FirstValue(pairs + [(name, value)], key) == FirstValue(pairs, key)
  {
    if FirstValue(pairs, key).Some? {
      FirstValueWins(pairs, [(name, value)], key);
    } else {
      var all := pairs + [(name, value)];
      FirstValueSpec(pairs, key);
      FirstValueSpec(pairs, name);
      FirstValueSpec(all, key);
      forall i | 0 <= i < |all| ensures all[i].0 != key {
        if i < |pairs| { assert all[i] == pairs[i]; }
      }
    }
  }

  /** A name that no earlier pair carries is looked up at its own position. */
  lemma {:induction false} FirstValueAt(pairs: seq<(string, string)>, i: nat)
    requires i < |pairs| && forall j :: 0 <= j < i ==> pairs[j].0 != pairs[i].0
    ensures FirstValue(pairs, pairs[i].0) == Some(pairs[i].1)
  {
    if i > 0 {
      assert pairs[1..][i - 1] == pairs[i];
      FirstValueAt(pairs[1..], i - 1);
    }
  }

  /** A field that `parse_qsl` keeps, as a sequence of zero or one pairs. */
  function FieldPairs(field: string): seq<(string, string)> {
    match QueryField(field)
    case None => []
    case Some(p) => [p]
  }

  /** Text without `+` is unchanged by the `+`-to-space step. */
  lemma PlusToSpaceNoPlus(s: string)
    requires '+' !in s
    ensures PlusToSpace(s) == s
  {
  }

  /** `name=value` with no `=` in the name is kept exactly when the value is not empty. */
  lemma QueryFieldOf(name: string, value: string)
    requires '=' !in name
    ensures QueryField(name + "=" + value) ==
      if value == "" then None else Some((PlusToSpace(name), PlusToSpace(value)))
  {
    assert name + "=" + value == name + ['='] + value;
    SplitOnceAt(name, '=', value);
  }

  /** The fields of a query are read one `&`-separated field at a time, from the left. */
  lemma ParseQslCons(field: string, rest: string)
    requires '&' !in field
    ensures ParseQsl(field + "&" + rest) == FieldPairs(field) + ParseQsl(rest)
  {
    var q := field + "&" + rest;
    assert q == field + ['&'] + rest;
    SplitOnceAt(field, '&', rest);
    assert SplitAll(q, '&') == [field] + SplitAll(rest, '&');
    var fields := [field] + SplitAll(rest, '&');
    assert fields[1..] == SplitAll(rest, '&');
    assert CollectFields(fields) == FieldPairs(field) + CollectFields(SplitAll(rest, '&'));
    if rest == "" {
      assert SplitAll(rest, '&') == [""];
      assert QueryField("") == None;
      assert CollectFields([""]) == [];
    }
  }

  /** The last field of a query. */
  lemma ParseQslLast(field: string)
    requires '&' !in field
    ensures ParseQsl(field) == FieldPairs(field)
  {
    if field == "" {
    } else {
      assert SplitAll(field, '&') == [field];
    }
  }

  /**
   * `urlencode(pairs)` for names and values that need no quoting: the
   * `name=value` fields joined by `&`. It is the inverse `parse_qsl` is read
   * against.
   */
  function EncodeQuery(pairs: seq<(string, string)>): string {
    if |pairs| == 0 then ""
    else if |pairs| == 1 then pairs[0].0 + "=" + pairs[0].1
    else pairs[0].0 + "=" + pairs[0].1 + "&" + EncodeQuery(pairs[1..])
  }

  /** A field that `urlencode` writes as itself and `parse_qsl` keeps as itself. */
  predicate PlainField(name: string, value: string) {
    && '=' !in name && '&' !in name && '+' !in name && '%' !in name
    && '&' !in value && '+' !in value && '%' !in value && value != ""
  }

  /** A plain field is read back as the pair that wrote it. */
  lemma QueryFieldPlain(name: string, value: string)
    requires PlainField(name, value)
    ensures '&' !in name + "=" + value
    ensures QueryField(name + "=" + value) == Some((name, value))
  {
    QueryFieldOf(name, value);
    PlusToSpaceNoPlus(name);
    PlusToSpaceNoPlus(value);
    var f := name + "=" + value;
    forall i | 0 <= i < |f| ensures f[i] != '&' {
      if i < |name| { assert f[i] == name[i]; }
      else if i > |name| { assert f[i] == value[i - |name| - 1]; }
    }
  }

  /** `parse_qsl(urlencode(pairs)) == pairs` for plain fields. */
  lemma {:induction false} ParseQslEncodeQuery(pairs: seq<(string, string)>)
    requires forall i :: 0 <= i < |pairs| ==> PlainField(pairs[i].0, pairs[i].1)
    ensures ParseQsl(EncodeQuery(pairs)) == pairs
    decreases |pairs|
  {
    if |pairs| == 1 {
      QueryFieldPlain(pairs[0].0, pairs[0].1);
      ParseQslLast(pairs[0].0 + "=" + pairs[0].1);
    } else if |pairs| > 1 {
      var field := pairs[0].0 + "=" + pairs[0].1;
      QueryFieldPlain(pairs[0].0, pairs[0].1);
      ParseQslCons(field, EncodeQuery(pairs[1..]));
      ParseQslEncodeQuery(pairs[1..]);
    }
  }

  /** A character that is neither `=` nor `&` occurs in an encoded query only where a name or value has it. */
  lemma {:induction false} EncodeQueryAvoids(pairs: seq<(string, string)>, c: char)
    requires c != '=' && c != '&'
    requires forall i :: 0 <= i < |pairs| ==> c !in pairs[i].0 && c !in pairs[i].1
    ensures c !in EncodeQuery(pairs)
    decreases |pairs|
  {
    if |pairs| > 1 {
      EncodeQueryAvoids(pairs[1..], c);
    }
  }

  /** Text with none of the characters that end a URI label or get removed from a URI. */
  predicate LabelSafe(s: string) {
    NoUnsafe(s) && '?' !in s && '#' !in s
  }

  /** A value that a Key URI carries as itself in its query: no separator, no `+` and no `%` escape to decode. */
  predicate QuerySafe(s: string) {
    s != "" && '&' !in s && '+' !in s && '%' !in s && '#' !in s && NoUnsafe(s)
  }
}
