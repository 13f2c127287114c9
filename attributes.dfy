/**
 * `{key=value ...}` attribute strings written after an image
 * (`parseAttributes`, src/markdown/markdown.ts). The scanner below follows
 * the global regular expression
 *   key   = a word character, then word characters or `-`, then `=`
 *   value = a quoted string (`"` or `'`, backslash escapes kept verbatim),
 *           or an unquoted token (one non-quote character, then non-space),
 *           or nothing.
 * An unquoted token is read as the body of a JSON string literal, falling
 * back to the raw token when that is not valid JSON; an empty value is
 * `undefined` (None).
 */
module Attributes {
  import opened Wrappers
  import opened Strings

  type Attrs = map<string, Option<string>>

  /** `\w`. */
  predicate IsWordChar(c: char) {
    'a' <= c <= 'z' || 'A' <= c <= 'Z' || '0' <= c <= '9' || c == '_'
  }

  /** `[\w0-9_-]`. */
  predicate IsKeyChar(c: char) {
    IsWordChar(c) || c == '-'
  }

  predicate IsQuote(c: char) {
    c == '"' || c == '\''
  }

  /** End of the run of key characters starting at `i`. */
  function KeyRunEnd(s: string, i: nat): (e: nat)
    requires i <= |s|
    ensures i <= e <= |s|
    ensures forall j :: i <= j < e ==> IsKeyChar(s[j])
    ensures e < |s| ==> !IsKeyChar(s[e])
    decreases |s| - i
  {
    if i < |s| && IsKeyChar(s[i]) then KeyRunEnd(s, i + 1) else i
  }

  /** End of the run of non-space characters (`\S*`) starting at `i`. */
  function NonSpaceEnd(s: string, i: nat): (e: nat)
    requires i <= |s|
    ensures i <= e <= |s|
    ensures forall j :: i <= j < e ==> !IsJsSpace(s[j])
    ensures e < |s| ==> IsJsSpace(s[e])
    decreases |s| - i
  {
    if i < |s| && !IsJsSpace(s[i]) then NonSpaceEnd(s, i + 1) else i
  }

  /**
   * The lazy body `((?:\\.|[^\\])*?)` followed by the closing quote: the
   * index of the first closing quote not taken by a backslash pair, if any.
   */
  function QuotedEnd(s: string, i: nat, quote: char): (r: Option<nat>)
    requires i <= |s|
    ensures r.Some? ==> i <= r.value < |s| && s[r.value] == quote
    decreases |s| - i
  {
    if i == |s| then None
    else if s[i] == quote then Some(i)
    else if s[i] == '\\' then
      if i + 1 < |s| && !IsLineTerminator(s[i + 1]) then QuotedEnd(s, i + 2, quote) else None
    else QuotedEnd(s, i + 1, quote)
  }

  /** How many backslashes run back from just before `j`, not reaching before `i`. */
  function BackslashesBefore(s: string, i: nat, j: nat): nat
    requires i <= j <= |s|
    decreases j - i
  {
    if j > i && s[j - 1] == '\\' then 1 + BackslashesBefore(s, i, j - 1) else 0
  }

  /** Position `j` is consumed by a backslash pair of a scan started at `i`: an odd run precedes it. */
  predicate Escaped(s: string, i: nat, j: nat)
    requires i <= j <= |s|
  {
    BackslashesBefore(s, i, j) % 2 == 1
  }

  /** A backslash that opens a pair but has no character `.` can match after it. */
  predicate BadEscape(s: string, i: nat, b: nat)
    requires i <= b < |s|
  {
    s[b] == '\\' && !Escaped(s, i, b) && (b + 1 == |s| || IsLineTerminator(s[b + 1]))
  }

  /** A non-backslash at `i` does not change which later positions are escaped. */
  lemma {:induction false} EscapedShift1(s: string, i: nat, j: nat)
    requires i < j <= |s| && s[i] != '\\'
    ensures BackslashesBefore(s, i, j) == BackslashesBefore(s, i + 1, j)
    decreases j - i
  {
    if j - 1 > i && s[j - 1] == '\\' {
      EscapedShift1(s, i, j - 1);
    }
  }

  /** A backslash pair at `i` does not change the parity of later runs. */
  lemma {:induction false} EscapedShift2(s: string, i: nat, j: nat)
    requires i + 2 <= j <= |s| && s[i] == '\\'
    ensures Escaped(s, i, j) <==> Escaped(s, i + 2, j)
    decreases j - i
  {
    if j > i + 2 && s[j - 1] == '\\' {
      EscapedShift2(s, i, j - 1);
    } else if j == i + 2 && s[i + 1] == '\\' {
      assert BackslashesBefore(s, i, i + 1) == 1;
    }
  }

  /**
   * What the lazy quoted body finds, stated over the text: the result is the
   * first quote at or after `i` not preceded by an odd run of backslashes,
   * with no dangling backslash before it; there is none exactly when every
   * such quote comes after a dangling backslash.
   */
  lemma {:induction false} QuotedEndScan(s: string, i: nat, quote: char)
    requires i <= |s| && quote != '\\'
    ensures QuotedEnd(s, i, quote).Some? ==>
      var c := QuotedEnd(s, i, quote).value;
      !Escaped(s, i, c) &&
      forall j :: i <= j < c ==> !(s[j] == quote && !Escaped(s, i, j)) && !BadEscape(s, i, j)
    ensures QuotedEnd(s, i, quote).None? ==>
      forall j :: i <= j < |s| && s[j] == quote && !Escaped(s, i, j) ==> exists b :: i <= b < j && BadEscape(s, i, b)
    decreases |s| - i
  {
    if i == |s| || s[i] == quote {
    } else if s[i] == '\\' {
      if i + 1 < |s| && !IsLineTerminator(s[i + 1]) {
        QuotedEndScan(s, i + 2, quote);
        forall j | i + 2 <= j <= |s|
          ensures Escaped(s, i, j) <==> Escaped(s, i + 2, j)
        {
          EscapedShift2(s, i, j);
        }
        assert BackslashesBefore(s, i, i + 1) == 1;
        forall j | i + 2 <= j < |s|
          ensures BadEscape(s, i, j) <==> BadEscape(s, i + 2, j)
        {
        }
        if QuotedEnd(s, i, quote).None? {
          forall j | i <= j < |s| && s[j] == quote && !Escaped(s, i, j)
            ensures exists b :: i <= b < j && BadEscape(s, i, b)
          {
            var b :| i + 2 <= b < j && BadEscape(s, i + 2, b);
            assert BadEscape(s, i, b);
          }
        }
      } else {
        assert BadEscape(s, i, i);
      }
    } else {
      QuotedEndScan(s, i + 1, quote);
      forall j | i + 1 <= j <= |s|
        ensures Escaped(s, i, j) <==> Escaped(s, i + 1, j)
      {
        EscapedShift1(s, i, j);
      }
      forall j | i + 1 <= j < |s|
        ensures BadEscape(s, i, j) <==> BadEscape(s, i + 1, j)
      {
      }
      if QuotedEnd(s, i, quote).None? {
        forall j | i <= j < |s| && s[j] == quote && !Escaped(s, i, j)
          ensures exists b :: i <= b < j && BadEscape(s, i, b)
        {
          var b :| i + 1 <= b < j && BadEscape(s, i + 1, b);
          assert BadEscape(s, i, b);
        }
      }
    }
  }

  /**
   * One match: the key (group 1), the quoted body (group 3, absent unless
   * the quoted branch matched), the unquoted token (group 4, empty unless
   * that branch matched something) and where the match ends.
   */
  datatype Match = Match(key: string, quoted: Option<string>, token: string, end: nat)

  /** The match starting exactly at `p`, if the expression matches there. */
  function MatchAt(s: string, p: nat): (r: Option<Match>)
    requires p <= |s|
    ensures r.Some? ==> p + |r.value.key| < r.value.end <= |s| && |r.value.key| >= 1
    ensures r.Some? ==> r.value.key == s[p..p + |r.value.key|] && s[p + |r.value.key|] == '='
  {
    if p < |s| && IsWordChar(s[p]) then
      var e := KeyRunEnd(s, p);
      if e < |s| && s[e] == '=' then
        var v := e + 1;
        if v < |s| && IsQuote(s[v]) && QuotedEnd(s, v + 1, s[v]).Some? then
          var close := QuotedEnd(s, v + 1, s[v]).value;
          Some(Match(s[p..e], Some(s[v + 1..close]), "", close + 1))
        else if v < |s| && !IsQuote(s[v]) then
          var t := NonSpaceEnd(s, v + 1);
          Some(Match(s[p..e], None, s[v..t], t))
        else Some(Match(s[p..e], None, "", v))
      else None
    else None
  }

  /** `regex.exec` from `lastIndex == from`: the leftmost match at or after `from`. */
  function NextMatch(s: string, from: nat): (r: Option<Match>)
    requires from <= |s|
    ensures r.Some? ==> from < r.value.end <= |s|
    decreases |s| - from
  {
    if from == |s| then None
    else match MatchAt(s, from)
      case Some(m) => Some(m)
      case None => NextMatch(s, from + 1)
  }

  /** `exec` finds the leftmost match at or after `from`, and nothing only when no position from there on matches. */
  lemma {:induction false} NextMatchLeftmost(s: string, from: nat)
    requires from <= |s|
    ensures NextMatch(s, from).Some? ==>
      exists p :: from <= p <= |s| && MatchAt(s, p) == NextMatch(s, from) && forall q :: from <= q < p ==> MatchAt(s, q).None?
    ensures NextMatch(s, from).None? ==> forall q :: from <= q <= |s| ==> MatchAt(s, q).None?
    decreases |s| - from
  {
    if from < |s| && MatchAt(s, from).None? {
      NextMatchLeftmost(s, from + 1);
      if NextMatch(s, from).Some? {
        var p :| from + 1 <= p <= |s| && MatchAt(s, p) == NextMatch(s, from + 1) && forall q :: from + 1 <= q < p ==> MatchAt(s, q).None?;
        assert forall q :: from <= q < p ==> MatchAt(s, q).None?;
      }
    } else if from < |s| {
      assert MatchAt(s, from) == NextMatch(s, from);
    }
  }

  /** Every match of the global expression from `from` on, in order. */
  function Matches(s: string, from: nat): seq<Match>
    requires from <= |s|
    decreases |s| - from
  {
    match NextMatch(s, from)
    case None => []
    case Some(m) => [m] + Matches(s, m.end)
  }

  function HexValue(c: char): nat {
    if '0' <= c <= '9' then c as nat - '0' as nat
    else if 'a' <= c <= 'f' then c as nat - 'a' as nat + 10
    else if 'A' <= c <= 'F' then c as nat - 'A' as nat + 10
    else 16
  }

  /** Four hexadecimal digits starting at `i`, as a UTF-16 code unit. */
  function Hex4(t: string, i: nat): Option<nat>
  {
    if i + 4 <= |t| && HexValue(t[i]) < 16 && HexValue(t[i + 1]) < 16 && HexValue(t[i + 2]) < 16 && HexValue(t[i + 3]) < 16 then
      Some(((HexValue(t[i]) * 16 + HexValue(t[i + 1])) * 16 + HexValue(t[i + 2])) * 16 + HexValue(t[i + 3]))
    else None
  }

  function Prepend(c: char, rest: Option<string>): Option<string> {
    match rest
    case None => None
    case Some(r) => Some([c] + r)
  }

  /**
   * `JSON.parse('"' + t + '"')`: None when that throws (a bare `"`, a
   * control character, a bad or dangling escape). A surrogate pair written
   * as two `\u` escapes becomes one character.
   */
  function JsonUnescape(t: string): Option<string>
    decreases |t|
  {
    if |t| == 0 then Some("")
    else if t[0] == '"' || t[0] < '\U{0020}' then None
    else if t[0] != '\\' then Prepend(t[0], JsonUnescape(t[1..]))
    else if |t| < 2 then None
    else if t[1] == '"' then Prepend('"', JsonUnescape(t[2..]))
    else if t[1] == '\\' then Prepend('\\', JsonUnescape(t[2..]))
    else if t[1] == '/' then Prepend('/', JsonUnescape(t[2..]))
    else if t[1] == 'b' then Prepend('\U{0008}', JsonUnescape(t[2..]))
    else if t[1] == 'f' then Prepend('\U{000C}', JsonUnescape(t[2..]))
    else if t[1] == 'n' then Prepend('\n', JsonUnescape(t[2..]))
    else if t[1] == 'r' then Prepend('\r', JsonUnescape(t[2..]))
    else if t[1] == 't' then Prepend('\t', JsonUnescape(t[2..]))
    else if t[1] == 'u' then
      match Hex4(t, 2)
      case None => None
      case Some(unit) =>
        if unit < 0xD800 || 0xE000 <= unit then Prepend(unit as char, JsonUnescape(t[6..]))
        else if unit < 0xDC00 && |t| >= 12 && t[6] == '\\' && t[7] == 'u' && Hex4(t, 8).Some?
                && 0xDC00 <= Hex4(t, 8).value < 0xE000 then
          var code := 0x10000 + (unit - 0xD800) * 0x400 + (Hex4(t, 8).value - 0xDC00);
          Prepend(code as char, JsonUnescape(t[12..]))
        else None
    else None
  }

  /** The `try { JSON.parse } catch` around an unquoted token: the raw token when parsing throws. */
  function ParsedOrRaw(t: string): string {
    match JsonUnescape(t)
    case Some(v) => v
    case None => t
  }

  /** The value stored for a match. */
  function ValueOf(m: Match): Option<string> {
    if |m.token| > 0 then Some(ParsedOrRaw(m.token)) else m.quoted
  }

  /** `result[key] = value` for each match in turn. */
  function Assign(ms: seq<Match>): Attrs
    decreases |ms|
  {
    if |ms| == 0 then map[]
    else Assign(ms[..|ms| - 1])[ms[|ms| - 1].key := ValueOf(ms[|ms| - 1])]
  }

  /** `attributeString.slice(1, -1)`; for "{" alone the slice is empty. */
  function Inner(s: string): string {
    if |s| >= 2 then s[1..|s| - 1] else ""
  }

  /** What `parseAttributes` returns: nothing unless the text is braced. */
  function AttributesOf(s: string): (r: Option<Attrs>)
    ensures r.Some? <==> StartsWith(s, "{") && EndsWith(s, "}")
  {
    if !(StartsWith(s, "{") && EndsWith(s, "}")) then None
    else Some(Assign(Matches(Inner(s), 0)))
  }

  /** `parseAttributes`: repeated `regex.exec`, each match assigned into the result. */
  method ParseAttributes(s: string) returns (r: Option<Attrs>)
    ensures r == AttributesOf(s)
  {
    if !(StartsWith(s, "{") && EndsWith(s, "}")) {
      return None;
    }
    var result := AssignMatches(Inner(s));
    return Some(result);
  }

  /** The `while ((match = regex.exec(...)) !== null)` loop of `parseAttributes`. */
  method AssignMatches(inner: string) returns (result: Attrs)
    ensures result == Assign(Matches(inner, 0))
  {
    result := map[];
    var lastIndex := 0;
    ghost var seen: seq<Match> := [];
    var next := NextMatch(inner, lastIndex);
    while next.Some?
      invariant lastIndex <= |inner| && next == NextMatch(inner, lastIndex)
      invariant seen + Matches(inner, lastIndex) == Matches(inner, 0)
      invariant result == Assign(seen)
      decreases |inner| - lastIndex
    {
      var m := next.value;
      MatchesStep(inner, lastIndex, seen);
      AssignSnoc(seen, m);
      result := result[m.key := ValueOf(m)];
      seen := seen + [m];
      lastIndex := m.end;
      next := NextMatch(inner, lastIndex);
    }
    assert Matches(inner, lastIndex) == [];
    assert seen + [] == seen;
  }

  /** The next match moves from the rest of the matches to those seen. */
  lemma MatchesStep(s: string, from: nat, seen: seq<Match>)
    requires from <= |s| && NextMatch(s, from).Some?
    ensures var m := NextMatch(s, from).value;
      seen + Matches(s, from) == (seen + [m]) + Matches(s, m.end)
  {
    var m := NextMatch(s, from).value;
    assert Matches(s, from) == [m] + Matches(s, m.end);
    assert seen + ([m] + Matches(s, m.end)) == (seen + [m]) + Matches(s, m.end);
  }

  lemma AssignSnoc(ms: seq<Match>, m: Match)
    ensures Assign(ms + [m]) == Assign(ms)[m.key := ValueOf(m)]
  {
    assert (ms + [m])[..|ms + [m]| - 1] == ms;
  }

  /** The index of the last match for `key` decides its value; keys without a match are absent. */
  lemma LastAssignmentWins(ms: seq<Match>, key: string)
    ensures key in Assign(ms) <==> exists i :: 0 <= i < |ms| && ms[i].key == key
    ensures forall i :: 0 <= i < |ms| && ms[i].key == key && (forall j :: i < j < |ms| ==> ms[j].key != key) ==>
              Assign(ms)[key] == ValueOf(ms[i])
  {
    AssignDomain(ms, key);
    forall i | 0 <= i < |ms| && ms[i].key == key && (forall j :: i < j < |ms| ==> ms[j].key != key)
      ensures Assign(ms)[key] == ValueOf(ms[i])
    {
      AssignLast(ms, key, i);
    }
  }

  /** A key is assigned exactly when some match names it. */
  lemma {:induction false} AssignDomain(ms: seq<Match>, key: string)
    ensures key in Assign(ms) <==> exists i :: 0 <= i < |ms| && ms[i].key == key
    decreases |ms|
  {
    if |ms| > 0 {
      var init := ms[..|ms| - 1];
      AssignDomain(init, key);
      if ms[|ms| - 1].key != key {
        if i :| 0 <= i < |ms| && ms[i].key == key {
          assert init[i] == ms[i];
        }
        if i :| 0 <= i < |init| && init[i].key == key {
          assert ms[i] == init[i];
        }
      }
    }
  }

  /** The last match naming a key gives its value. */
  lemma {:induction false} AssignLast(ms: seq<Match>, key: string, i: nat)
    requires i < |ms| && ms[i].key == key
    requires forall j :: i < j < |ms| ==> ms[j].key != key
    ensures key in Assign(ms) && Assign(ms)[key] == ValueOf(ms[i])
    decreases |ms|
  {
    var init := ms[..|ms| - 1];
    if i < |ms| - 1 {
      forall j | i < j < |init|
        ensures init[j].key != key
      {
        assert init[j] == ms[j];
      }
      AssignLast(init, key, i);
      assert init[i] == ms[i];
    }
  }

  /** A later duplicate key overwrites the earlier value. */
  lemma LaterDuplicateOverwrites(ms: seq<Match>, i: nat, j: nat)
    requires i < j < |ms| && ms[i].key == ms[j].key
    requires forall k :: j < k < |ms| ==> ms[k].key != ms[j].key
    ensures ms[i].key in Assign(ms)
    ensures Assign(ms)[ms[i].key] == ValueOf(ms[j])
  {
    LastAssignmentWins(ms, ms[j].key);
  }

  /** A quoted value is stored verbatim, escapes included. */
  lemma QuotedVerbatim(s: string, p: nat)
    requires p <= |s| && MatchAt(s, p).Some? && MatchAt(s, p).value.quoted.Some?
    ensures ValueOf(MatchAt(s, p).value) == MatchAt(s, p).value.quoted
  {
  }

  /** A token without backslashes, quotes or control characters is its own JSON reading. */
  lemma {:induction false} JsonUnescapePlain(t: string)
    requires forall i :: 0 <= i < |t| ==> t[i] != '\\' && t[i] != '"' && t[i] >= '\U{0020}'
    ensures JsonUnescape(t) == Some(t)
    decreases |t|
  {
    if |t| > 0 {
      JsonUnescapePlain(t[1..]);
      assert [t[0]] + t[1..] == t;
    }
  }

  /** A key of word characters and `-`, starting with a word character. */
  predicate IsKey(k: string) {
    |k| >= 1 && IsWordChar(k[0]) && forall j :: 0 <= j < |k| ==> IsKeyChar(k[j])
  }

  /** The text between braces, and the braces themselves, of `{` + `inner` + `}`. */
  lemma Braced(inner: string)
    ensures var s := "{" + inner + "}";
      StartsWith(s, "{") && EndsWith(s, "}") && Inner(s) == inner
  {
    var s := "{" + inner + "}";
    assert s[..1] == "{";
    assert s[|s| - 1..] == "}";
    assert s[1..|s| - 1] == inner;
  }

  /** A key followed by `=` is read as the whole key. */
  lemma KeyThenEquals(inner: string, k: string)
    requires IsKey(k) && |k| < |inner| && inner[..|k|] == k && inner[|k|] == '='
    ensures KeyRunEnd(inner, 0) == |k| && inner[0..|k|] == k
  {
  }

  /** `{k=v}` with an unquoted `v` stores `JSON.parse` of `v`, or `v` itself when that throws. */
  lemma SingleUnquoted(k: string, v: string)
    requires IsKey(k) && |v| >= 1 && !IsQuote(v[0])
    requires forall j :: 0 <= j < |v| ==> !IsJsSpace(v[j])
    ensures AttributesOf("{" + k + "=" + v + "}") == Some(map[k := Some(ParsedOrRaw(v))])
  {
    var inner := k + "=" + v;
    Braced(inner);
    assert "{" + k + "=" + v + "}" == "{" + inner + "}";
    var m := Match(k, None, v, |inner|);
    UnquotedMatch(k, v);
    assert NextMatch(inner, 0) == Some(m);
    assert Matches(inner, |inner|) == [];
    assert Matches(inner, 0) == [m] + Matches(inner, |inner|);
    assert Assign([m]) == Assign([])[k := ValueOf(m)];
  }

  /** `k=v` with an unquoted `v` is one match spanning the whole text. */
  lemma UnquotedMatch(k: string, v: string)
    requires IsKey(k) && |v| >= 1 && !IsQuote(v[0])
    requires forall j :: 0 <= j < |v| ==> !IsJsSpace(v[j])
    ensures var inner := k + "=" + v;
      MatchAt(inner, 0) == Some(Match(k, None, v, |inner|))
  {
    var inner := k + "=" + v;
    assert inner[..|k|] == k && inner[|k|] == '=';
    KeyThenEquals(inner, k);
    assert inner[|k| + 1..|inner|] == v;
  }

  /** `{k=v}` with a plain unquoted `v` (no backslash, quote, control character or space) stores `v`. */
  lemma SinglePlainUnquoted(k: string, v: string)
    requires IsKey(k) && |v| >= 1
    requires forall j :: 0 <= j < |v| ==> v[j] != '\\' && !IsQuote(v[j]) && v[j] >= '\U{0020}' && !IsJsSpace(v[j])
    ensures AttributesOf("{" + k + "=" + v + "}") == Some(map[k := Some(v)])
  {
    JsonUnescapePlain(v);
    SingleUnquoted(k, v);
  }

  /** `{k=}` stores `undefined` for `k`. */
  lemma SingleEmpty(k: string)
    requires IsKey(k)
    ensures AttributesOf("{" + k + "=}") == Some(map[k := None])
  {
    var inner := k + "=";
    Braced(inner);
    assert "{" + k + "=}" == "{" + inner + "}";
    assert inner[..|k|] == k && inner[|k|] == '=';
    KeyThenEquals(inner, k);
    var m := Match(k, None, "", |inner|);
    assert MatchAt(inner, 0) == Some(m);
    assert Matches(inner, 0) == [m];
    assert Assign([m]) == Assign([])[k := ValueOf(m)];
  }

  /** `{a=1}`: one unquoted value. */
  lemma ExampleUnquoted()
    ensures AttributesOf("{a=1}") == Some(map["a" := Some("1")])
  {
    var inner := Inner("{a=1}");
    assert inner == "a=1";
    assert KeyRunEnd(inner, 0) == 1;
    assert NonSpaceEnd(inner, 3) == 3;
    assert inner[0..1] == "a" && inner[2..3] == "1";
    assert MatchAt(inner, 0) == Some(Match("a", None, "1", 3));
    assert NextMatch(inner, 3) == None;
    JsonUnescapePlain("1");
    assert Matches(inner, 0) == [Match("a", None, "1", 3)];
  }

  /** `{w='x y'}`: a quoted value keeps its spaces. */
  lemma ExampleQuoted()
    ensures AttributesOf("{w='x y'}") == Some(map["w" := Some("x y")])
  {
    var inner := Inner("{w='x y'}");
    assert inner == "w='x y'";
    assert KeyRunEnd(inner, 0) == 1;
    assert QuotedEnd(inner, 3, '\'') == Some(6);
    assert inner[0..1] == "w" && inner[3..6] == "x y";
    assert MatchAt(inner, 0) == Some(Match("w", Some("x y"), "", 7));
    assert NextMatch(inner, 7) == None;
    assert Matches(inner, 0) == [Match("w", Some("x y"), "", 7)];
  }

  /** `{c=}`: an empty value is `undefined`. */
  lemma ExampleEmpty()
    ensures AttributesOf("{c=}") == Some(map["c" := None])
  {
    var inner := Inner("{c=}");
    assert inner == "c=";
    assert KeyRunEnd(inner, 0) == 1;
    assert inner[0..1] == "c";
    assert MatchAt(inner, 0) == Some(Match("c", None, "", 2));
    assert NextMatch(inner, 2) == None;
    assert Matches(inner, 0) == [Match("c", None, "", 2)];
  }
}
