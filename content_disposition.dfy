/**
 * parseFilenameFromContentDisposition (src/api/proposals/proposals.api.ts): the filename of
 * a download, read from its Content-Disposition header with the case-insensitive pattern
 *   filename\*=UTF-8''([^;]+) | filename="([^"]+)" | filename=([^;]+)
 * (a simplified reading of the `filename*` and `filename` parameters of RFC 6266 section 4.1,
 * with the `UTF-8''` form of RFC 8187 section 3.2), trimmed and percent-decoded.
 */
module ContentDisposition {
  import opened Wrappers
  import opened Text
  import Uri

  const ExtendedPrefix := "filename*=UTF-8''"
  const QuotedPrefix := "filename=\""
  const BarePrefix := "filename="

  /** `lit` occurs at position i of s, ignoring the case of ASCII letters (the `i` flag). */
  predicate LiteralAt(s: string, i: nat, lit: string) {
    i + |lit| <= |s| && forall k :: 0 <= k < |lit| ==> LowerAscii(s[i + k]) == LowerAscii(lit[k])
  }

  /** Length of the longest run of characters other than `stop` starting at position j. */
  function RunWithout(s: string, j: nat, stop: char): (n: nat)
    requires j <= |s|
    ensures j + n <= |s|
    ensures forall k :: j <= k < j + n ==> s[k] != stop
    ensures j + n == |s| || s[j + n] == stop
    decreases |s| - j
  {
    if j == |s| || s[j] == stop then 0 else 1 + RunWithout(s, j + 1, stop)
  }

  /** The three alternatives of the pattern, in the order the regex tries them. */
  datatype Alternative = Extended | Quoted | Bare

  /** A match: which alternative matched, and its captured group. */
  datatype Match = Match(alt: Alternative, capture: string)

  /** `filename\*=UTF-8''([^;]+)` at position i: the greedy capture of at least one non-`;` character. */
  function ExtendedAt(s: string, i: nat): (r: Option<string>)
    requires i <= |s|
    ensures r.Some? <==> LiteralAt(s, i, ExtendedPrefix) && RunWithout(s, i + 17, ';') > 0
    ensures r.Some? ==> r.value == s[i + 17..i + 17 + RunWithout(s, i + 17, ';')]
  {
    if LiteralAt(s, i, ExtendedPrefix) && RunWithout(s, i + 17, ';') > 0 then
      Some(s[i + 17..i + 17 + RunWithout(s, i + 17, ';')])
    else None
  }

  /** `filename="([^"]+)"` at position i: at least one non-quote character, then a closing quote. */
  function QuotedAt(s: string, i: nat): (r: Option<string>)
    requires i <= |s|
    ensures r.Some? <==> LiteralAt(s, i, QuotedPrefix) && RunWithout(s, i + 10, '"') > 0
                         && i + 10 + RunWithout(s, i + 10, '"') < |s|
    ensures r.Some? ==> r.value == s[i + 10..i + 10 + RunWithout(s, i + 10, '"')] && s[i + 10 + |r.value|] == '"'
  {
    if LiteralAt(s, i, QuotedPrefix) && RunWithout(s, i + 10, '"') > 0 && i + 10 + RunWithout(s, i + 10, '"') < |s| then
      Some(s[i + 10..i + 10 + RunWithout(s, i + 10, '"')])
    else None
  }

  /** `filename=([^;]+)` at position i: the value runs to the first `;` or the end. */
  function BareAt(s: string, i: nat): (r: Option<string>)
    requires i <= |s|
    ensures r.Some? <==> LiteralAt(s, i, BarePrefix) && RunWithout(s, i + 9, ';') > 0
    ensures r.Some? ==> r.value == s[i + 9..i + 9 + RunWithout(s, i + 9, ';')]
  {
    if LiteralAt(s, i, BarePrefix) && RunWithout(s, i + 9, ';') > 0 then
      Some(s[i + 9..i + 9 + RunWithout(s, i + 9, ';')])
    else None
  }

  /** The match starting exactly at position i: the first alternative, in pattern order, that matches there. */
  function MatchAt(s: string, i: nat): (r: Option<Match>)
    requires i <= |s|
    ensures r.Some? ==> r.value.capture != []
    ensures ExtendedAt(s, i).Some? ==> r == Some(Match(Extended, ExtendedAt(s, i).value))
    ensures ExtendedAt(s, i).None? && QuotedAt(s, i).Some? ==> r == Some(Match(Quoted, QuotedAt(s, i).value))
    ensures ExtendedAt(s, i).None? && QuotedAt(s, i).None? && BareAt(s, i).Some? ==>
              r == Some(Match(Bare, BareAt(s, i).value))
    ensures r.None? <==> ExtendedAt(s, i).None? && QuotedAt(s, i).None? && BareAt(s, i).None?
  {
    match ExtendedAt(s, i)
    case Some(v) => Some(Match(Extended, v))
    case None =>
      match QuotedAt(s, i)
      case Some(v) => Some(Match(Quoted, v))
      case None =>
        match BareAt(s, i)
        case Some(v) => Some(Match(Bare, v))
        case None => None
  }

  /** `RegExp.prototype.exec` from position i: the leftmost position at or after i where the pattern matches. */
  function Search(s: string, i: nat): (r: Option<(nat, Match)>)
    requires i <= |s|
    ensures r.Some? ==> i <= r.value.0 <= |s| && MatchAt(s, r.value.0) == Some(r.value.1)
    decreases |s| - i
  {
    match MatchAt(s, i)
    case Some(m) => Some((i, m))
    case None => if i == |s| then None else Search(s, i + 1)
  }

  /** parseFilenameFromContentDisposition; `None` is the source's `null`. */
  function ParseFilename(cd: Option<string>): (r: Option<string>)
    ensures cd.None? || cd == Some("") ==> r.None?
    ensures r.Some? ==> r.value != []
  {
    if cd.None? || cd.value == "" then None
    else
      var raw := Trim(match Search(cd.value, 0) case Some((_, m)) => m.capture case None => "");
      if raw == "" then None
      else
        match Uri.Decode(raw)
        case Some(decoded) => Some(decoded)
        case None => Some(raw)
  }

  /** No position in [i, j) starts a match. */
  ghost predicate NoMatchBetween(s: string, i: nat, j: nat)
    requires j <= |s| + 1
  {
    forall q :: i <= q < j ==> MatchAt(s, q).None?
  }

  /** The match `exec` reports is the leftmost one: no earlier position matches, and none at all when it reports none. */
  lemma {:induction false} SearchIsLeftmost(s: string, i: nat)
    requires i <= |s|
    ensures Search(s, i).Some? ==> NoMatchBetween(s, i, Search(s, i).value.0)
    ensures Search(s, i).None? ==> NoMatchBetween(s, i, |s| + 1)
    decreases |s| - i
  {
    if MatchAt(s, i).None? && i < |s| {
      SearchIsLeftmost(s, i + 1);
      assert Search(s, i) == Search(s, i + 1);
    }
  }

  /** Matching a literal implies matching each of its prefixes. */
  lemma LiteralPrefix(s: string, i: nat, short: string, long: string)
    requires |short| <= |long| && long[..|short|] == short
    requires LiteralAt(s, i, long)
    ensures LiteralAt(s, i, short)
  {
    forall k | 0 <= k < |short| ensures LowerAscii(s[i + k]) == LowerAscii(short[k]) {
      assert short[k] == long[k];
    }
  }

  /** A header in which "filename" (in any case) never occurs yields no filename. */
  lemma NoParameterNoFilename(cd: string)
    requires forall i :: 0 <= i <= |cd| ==> !LiteralAt(cd, i, "filename")
    ensures ParseFilename(Some(cd)) == None
  {
    if Search(cd, 0).Some? {
      var p := Search(cd, 0).value.0;
      match Search(cd, 0).value.1.alt
      case Extended => LiteralPrefix(cd, p, "filename", ExtendedPrefix);
      case Quoted => LiteralPrefix(cd, p, "filename", QuotedPrefix);
      case Bare => LiteralPrefix(cd, p, "filename", BarePrefix);
    }
    assert Trim("") == "";
  }

  /**
   * The outcome for a non-empty header, case by case: null when nothing matches or the trimmed
   * capture is blank, otherwise the decoded capture, or the trimmed raw value when its
   * percent-encoding is malformed.
   */
  lemma ParseFilenameDecodes(cd: string)
    requires cd != ""
    ensures Search(cd, 0).None? ==> ParseFilename(Some(cd)) == None
    ensures Search(cd, 0).Some? && Trim(Search(cd, 0).value.1.capture) == [] ==>
              ParseFilename(Some(cd)) == None
    ensures Search(cd, 0).Some? ==>
              var raw := Trim(Search(cd, 0).value.1.capture);
              raw != [] ==>
              && (Uri.Decode(raw).Some? ==> ParseFilename(Some(cd)) == Uri.Decode(raw))
              && (Uri.Decode(raw).None? ==> ParseFilename(Some(cd)) == Some(raw))
  {
    assert Trim("") == "";
  }

  lemma LiteralAtCopy(s: string, i: nat, lit: string)
    requires i + |lit| <= |s| && s[i..i + |lit|] == lit
    ensures LiteralAt(s, i, lit)
  {
    forall k | 0 <= k < |lit| ensures s[i + k] == lit[k] {
      assert s[i..i + |lit|][k] == s[i + k];
    }
  }

  /** The filename a parsed value stands for: its percent-decoding, or the value itself when that fails. */
  function DecodedOrRaw(raw: string): Option<string> {
    match Uri.Decode(raw)
    case Some(d) => Some(d)
    case None => Some(raw)
  }

  /** When the pattern matches at the very start, the filename comes from that match. */
  lemma ParseMatchAtStart(s: string, m: Match)
    requires s != [] && MatchAt(s, 0) == Some(m)
    ensures Trim(m.capture) == [] ==> ParseFilename(Some(s)) == None
    ensures Trim(m.capture) != [] ==> ParseFilename(Some(s)) == DecodedOrRaw(Trim(m.capture))
  {
    assert Search(s, 0) == Some((0, m));
  }

  /** A literal does not occur where one of its characters differs. */
  lemma NotLiteralAt(s: string, i: nat, lit: string, k: nat)
    requires k < |lit| && i + k < |s| && LowerAscii(s[i + k]) != LowerAscii(lit[k])
    ensures !LiteralAt(s, i, lit)
  {
  }

  /** In prefix + value + tail, the run of non-`stop` characters after the prefix is exactly the value. */
  lemma ValueRun(prefix: string, value: string, stop: char, tail: string)
    requires forall k :: 0 <= k < |value| ==> value[k] != stop
    requires tail == [] || tail[0] == stop
    ensures var s := prefix + value + tail;
            RunWithout(s, |prefix|, stop) == |value| && s[|prefix|..|prefix| + |value|] == value
  {
    var s := prefix + value + tail;
    assert s[|prefix|..|prefix| + |value|] == value;
    forall k | |prefix| <= k < |prefix| + |value| ensures s[k] != stop {
      assert s[k] == value[k - |prefix|];
    }
    if tail != [] {
      assert s[|prefix| + |value|] == tail[0];
    }
    RunWithoutStops(s, |prefix|, stop, |value|);
  }

  /** At the start of `filename="<name>"...` the quoted alternative is the first to match. */
  lemma QuotedMatch(name: string, rest: string)
    requires name != []
    requires forall k :: 0 <= k < |name| ==> name[k] != '"'
    ensures MatchAt(QuotedPrefix + name + "\"" + rest, 0) == Some(Match(Quoted, name))
  {
    var tail := "\"" + rest;
    var s := QuotedPrefix + name + tail;
    assert s == QuotedPrefix + name + "\"" + rest;
    assert s[..10] == QuotedPrefix;
    LiteralAtCopy(s, 0, QuotedPrefix);
    assert s[8] == '=' && ExtendedPrefix[8] == '*';
    NotLiteralAt(s, 0, ExtendedPrefix, 8);
    ValueRun(QuotedPrefix, name, '"', tail);
  }

  /** `filename="<name>"` yields the trimmed, decoded name: the quoted form wins over the bare one. */
  lemma QuotedParameter(name: string, rest: string)
    requires name != [] && Trim(name) != []
    requires forall k :: 0 <= k < |name| ==> name[k] != '"'
    ensures ParseFilename(Some(QuotedPrefix + name + "\"" + rest)) == DecodedOrRaw(Trim(name))
  {
    QuotedMatch(name, rest);
    ParseMatchAtStart(QuotedPrefix + name + "\"" + rest, Match(Quoted, name));
  }

  /** At the start of `filename=<value>;...` only the bare alternative matches, capturing the value. */
  lemma BareMatch(value: string, rest: string)
    requires value != [] && value[0] != '"'
    requires forall k :: 0 <= k < |value| ==> value[k] != ';'
    ensures MatchAt(BarePrefix + value + ";" + rest, 0) == Some(Match(Bare, value))
  {
    var tail := ";" + rest;
    var s := BarePrefix + value + tail;
    assert s == BarePrefix + value + ";" + rest;
    assert s[..9] == BarePrefix;
    LiteralAtCopy(s, 0, BarePrefix);
    assert s[8] == '=' && ExtendedPrefix[8] == '*';
    NotLiteralAt(s, 0, ExtendedPrefix, 8);
    assert s[9] == value[0] && QuotedPrefix[9] == '"';
    NotLiteralAt(s, 0, QuotedPrefix, 9);
    ValueRun(BarePrefix, value, ';', tail);
  }

  /** `filename=<value>` yields the trimmed, decoded value, which ends at the first `;`. */
  lemma BareParameter(value: string, rest: string)
    requires value != [] && value[0] != '"' && Trim(value) != []
    requires forall k :: 0 <= k < |value| ==> value[k] != ';'
    ensures ParseFilename(Some(BarePrefix + value + ";" + rest)) == DecodedOrRaw(Trim(value))
  {
    BareMatch(value, rest);
    ParseMatchAtStart(BarePrefix + value + ";" + rest, Match(Bare, value));
  }

  /** At the start of `filename*=UTF-8''<value>` the extended alternative matches, capturing the value. */
  lemma ExtendedMatch(value: string)
    requires value != []
    requires forall k :: 0 <= k < |value| ==> value[k] != ';'
    ensures MatchAt(ExtendedPrefix + value, 0) == Some(Match(Extended, value))
  {
    var s := ExtendedPrefix + value + [];
    assert s == ExtendedPrefix + value;
    assert s[..17] == ExtendedPrefix;
    LiteralAtCopy(s, 0, ExtendedPrefix);
    ValueRun(ExtendedPrefix, value, ';', []);
  }

  /** `filename*=UTF-8''<value>` yields the trimmed, decoded value. */
  lemma ExtendedParameter(value: string)
    requires value != [] && Trim(value) != []
    requires forall k :: 0 <= k < |value| ==> value[k] != ';'
    ensures ParseFilename(Some(ExtendedPrefix + value)) == DecodedOrRaw(Trim(value))
  {
    ExtendedMatch(value);
    ParseMatchAtStart(ExtendedPrefix + value, Match(Extended, value));
  }

  /** The run measured from j is exactly n when n non-stop characters are followed by `stop` or the end. */
  lemma {:induction false} RunWithoutStops(s: string, j: nat, stop: char, n: nat)
    requires j + n <= |s|
    requires forall k :: j <= k < j + n ==> s[k] != stop
    requires j + n == |s| || s[j + n] == stop
    ensures RunWithout(s, j, stop) == n
    decreases n
  {
    if n > 0 {
      RunWithoutStops(s, j + 1, stop, n - 1);
    }
  }

  /** `filename*=UTF-8''a%20b` yields "a b". */
  lemma ExtendedExample()
    ensures ParseFilename(Some(ExtendedPrefix + "a%20b")) == Some("a b")
  {
    var v := "a%20b";
    TrimOfUnpadded(v);
    ExtendedParameter(v);
    Uri.PercentTwentyIsSpace();
    assert DecodedOrRaw(v) == Some("a b");
  }

  /**
   * A lone `%` is malformed, so the raw value is kept: `filename=<stem>%;...` yields
   * "<stem>%" (for instance `filename=100%; size=3` yields "100%").
   */
  lemma MalformedEscapeKeptRaw(stem: string, rest: string)
    requires stem != [] && stem[0] != '"' && !IsJsWhitespace(stem[0])
    requires forall k :: 0 <= k < |stem| ==> stem[k] != ';'
    ensures ParseFilename(Some(BarePrefix + stem + "%" + ";" + rest)) == Some(stem + "%")
  {
    var v := stem + "%";
    assert BarePrefix + stem + "%" + ";" + rest == BarePrefix + v + ";" + rest;
    assert v[0] == stem[0] && v[|v| - 1] == '%';
    TrimOfUnpadded(v);
    BareParameter(v, rest);
    Uri.LonePercentFails(v, |stem|);
    assert DecodedOrRaw(v) == Some(v);
  }
}
