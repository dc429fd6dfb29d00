/**
 `replace_env_values`: rewriting named entries of an environment file. The file is read in text
 mode, which turns every carriage return into a line feed, and split at every character Python's
 `str.splitlines` breaks at; it is written back without translation.
 */
module EnvFile {

  import opened Common

  // ----- lines -----

  predicate IsBreak(c: char) {
    c == '\n' || c == '\r' || 0x0b <= c as int <= 0x0c || 0x1c <= c as int <= 0x1e
    || c as int == 0x85 || 0x2028 <= c as int <= 0x2029
  }

  /** Universal newlines: `\r\n` and `\r` read as `\n`. */
  function Translate(raw: string): (text: string)
    ensures '\r' !in text
  {
    if raw == [] then []
    else if raw[0] == '\r' then
      ['\n'] + Translate(if |raw| > 1 && raw[1] == '\n' then raw[2..] else raw[1..])
    else [raw[0]] + Translate(raw[1..])
  }

  /** Reading gives the file's own text back exactly when it holds no carriage return. */
  lemma {:induction false} TranslateKeeps(raw: string)
    ensures Translate(raw) == raw <==> '\r' !in raw
  {
    if raw != [] {
      assert raw == [raw[0]] + raw[1..];
      if raw[0] != '\r' {
        TranslateKeeps(raw[1..]);
        assert Translate(raw)[1..] == Translate(raw[1..]);
      } else {
        assert Translate(raw)[0] != raw[0];
      }
    }
  }

  /** `splitlines(keepends=True)` of text without carriage returns. */
  function Split(text: string): (lines: seq<string>)
    ensures text != [] ==> lines != [] && lines[0] != []
  {
    if text == [] then []
    else if IsBreak(text[0]) || |text| == 1 then [[text[0]]] + Split(text[1..])
    else [[text[0]] + Split(text[1..])[0]] + Split(text[1..])[1..]
  }

  function Lines(raw: string): seq<string> {
    Split(Translate(raw))
  }

  function Join(lines: seq<string>): string {
    if lines == [] then [] else lines[0] + Join(lines[1..])
  }

  lemma {:induction false} JoinSplit(text: string)
    ensures Join(Split(text)) == text
  {
    if text != [] {
      JoinSplit(text[1..]);
      var lines := Split(text[1..]);
      if !IsBreak(text[0]) && |text| > 1 {
        var first := [text[0]] + lines[0];
        assert ([first] + lines[1..])[1..] == lines[1..];
        assert first + Join(lines[1..]) == [text[0]] + (lines[0] + Join(lines[1..]));
      } else {
        assert ([[text[0]]] + lines)[1..] == lines;
      }
      assert text == [text[0]] + text[1..];
    }
  }

  /** Breaks nowhere but at its end, and there, unless it is the last line, always. */
  predicate IsWhole(line: string, last: bool) {
    line != [] && '\r' !in line && (forall i | 0 <= i < |line| - 1 :: !IsBreak(line[i]))
    && (last || IsBreak(line[|line| - 1]))
  }

  predicate AreWhole(lines: seq<string>) {
    forall i | 0 <= i < |lines| :: IsWhole(lines[i], i == |lines| - 1)
  }

  lemma {:induction false} SplitIsWhole(text: string)
    requires '\r' !in text
    ensures AreWhole(Split(text))
  {
    if text != [] {
      SplitIsWhole(text[1..]);
      var rest, lines := Split(text[1..]), Split(text);
      if !IsBreak(text[0]) && |text| > 1 {
        assert IsWhole(rest[0], 0 == |rest| - 1);
        assert lines[0] == [text[0]] + rest[0];
        assert forall i | 0 < i < |lines| :: lines[i] == rest[i];
      } else {
        assert forall i | 0 < i < |lines| :: lines[i] == rest[i - 1];
      }
    }
  }

  lemma {:induction false} SplitFirst(line: string, rest: string)
    requires IsWhole(line, rest == [])
    ensures Split(line + rest) == [line] + Split(rest)
    decreases |line|
  {
    var text := line + rest;
    if |line| == 1 {
      assert text[1..] == rest && line == [text[0]];
      assert IsBreak(text[0]) || |text| == 1;
    } else {
      var tail := line[1..];
      assert IsWhole(tail, rest == []) by {
        assert forall i | 0 <= i < |tail| :: tail[i] == line[i + 1];
      }
      SplitFirst(tail, rest);
      assert text[1..] == tail + rest && line == [line[0]] + tail;
      assert !IsBreak(line[0]);
    }
  }

  lemma {:induction false} SplitJoin(lines: seq<string>)
    requires AreWhole(lines)
    ensures Split(Join(lines)) == lines && '\r' !in Join(lines)
    decreases |lines|
  {
    if lines != [] {
      var rest := lines[1..];
      assert AreWhole(rest) by {
        assert forall i | 0 <= i < |rest| :: rest[i] == lines[i + 1] && IsWhole(lines[i + 1], i + 1 == |lines| - 1);
      }
      SplitJoin(rest);
      assert IsWhole(lines[0], 0 == |lines| - 1);
      assert rest != [] ==> Join(rest) != [] by {
        if rest != [] { assert IsWhole(rest[0], 0 == |rest| - 1); }
      }
      SplitFirst(lines[0], Join(rest));
    }
  }

  /** Written lines are read back as they were exactly when each of them is whole. */
  lemma LinesReadBack(lines: seq<string>)
    ensures Lines(Join(lines)) == lines <==> AreWhole(lines)
  {
    if AreWhole(lines) {
      SplitJoin(lines);
      TranslateKeeps(Join(lines));
    }
    SplitIsWhole(Translate(Join(lines)));
  }

  // ----- entries -----

  /** What `\s` matches in a Python string pattern. */
  predicate IsSpace(c: char) {
    var n := c as int;
    0x09 <= n <= 0x0d || 0x1c <= n <= 0x20 || n == 0x85 || n == 0xa0 || n == 0x1680 || 0x2000 <= n <= 0x200a
    || n == 0x2028 || n == 0x2029 || n == 0x202f || n == 0x205f || n == 0x3000
  }

  predicate IsNameChar(c: char) {
    'a' <= c <= 'z' || 'A' <= c <= 'Z' || c == '_' || '0' <= c <= '9'
  }

  /** How many spaces a text starts with. */
  function Spaces(s: string): (n: nat)
    ensures n <= |s| && (n < |s| ==> !IsSpace(s[n]))
  {
    if s == [] || !IsSpace(s[0]) then 0 else 1 + Spaces(s[1..])
  }

  /** How many name characters a text starts with. */
  function NameSpan(s: string): (n: nat)
    ensures n <= |s| && (n < |s| ==> !IsNameChar(s[n]))
    ensures forall i | 0 <= i < n :: IsNameChar(s[i])
  {
    if s == [] || !IsNameChar(s[0]) then 0 else 1 + NameSpan(s[1..])
  }

  /**
   The length of the pattern's prefix: leading space and an optional `export` with space after
   it. Giving up the `export` cannot help a match, since a name holds no space.
   */
  function PrefixLength(s: string): (n: nat)
    ensures n <= |s|
  {
    var a := Spaces(s);
    if HasExport(s, a) then a + 6 + Spaces(s[a + 6..]) else a
  }

  predicate HasExport(s: string, a: nat) {
    a + 6 < |s| && s[a..a + 6] == "export" && IsSpace(s[a + 6])
  }

  datatype Entry = Entry(prefix: string, key: string, value: string)

  /** `_ENV_LINE.match`. */
  function Match(body: string): Option<Entry> {
    var p := PrefixLength(body);
    var k := NameSpan(body[p..]);
    if k > 0 && !('0' <= body[p] <= '9') && p + k < |body| && body[p + k] == '=' then
      Some(Entry(body[..p], body[p..p + k], body[p + k + 1..]))
    else None
  }

  function Show(e: Entry): string {
    e.prefix + e.key + ['='] + e.value
  }

  ghost predicate AgreeTo(s: string, t: string, n: nat) {
    n <= |s| && n <= |t| && forall i | 0 <= i < n :: s[i] == t[i]
  }

  lemma AgreeFrom(s: string, t: string, n: nat, a: nat)
    requires AgreeTo(s, t, n) && a <= n
    ensures AgreeTo(s[a..], t[a..], n - a)
  {
  }

  lemma {:induction false} SpacesAgree(s: string, t: string, n: nat)
    requires AgreeTo(s, t, n) && Spaces(s) < n
    ensures Spaces(t) == Spaces(s)
    decreases |s|
  {
    if IsSpace(s[0]) {
      AgreeFrom(s, t, n, 1);
      SpacesAgree(s[1..], t[1..], n - 1);
    }
  }

  lemma {:induction false} NameSpanAgrees(s: string, t: string, n: nat)
    requires AgreeTo(s, t, n) && NameSpan(s) < n
    ensures NameSpan(t) == NameSpan(s)
    decreases |s|
  {
    if IsNameChar(s[0]) {
      AgreeFrom(s, t, n, 1);
      NameSpanAgrees(s[1..], t[1..], n - 1);
    }
  }

  predicate IsMatchAt(t: string, p: nat, k: nat) {
    p == PrefixLength(t) && k == NameSpan(t[p..]) && k > 0 && p + k < |t| && !('0' <= t[p] <= '9') && t[p + k] == '='
  }

  function EntryAt(t: string, p: nat, k: nat): Entry
    requires p + k < |t|
  {
    Entry(t[..p], t[p..p + k], t[p + k + 1..])
  }

  lemma MatchAt(t: string, p: nat, k: nat)
    requires IsMatchAt(t, p, k)
    ensures Match(t) == Some(EntryAt(t, p, k))
  {
  }

  lemma MatchParts(t: string) returns (p: nat, k: nat)
    requires Match(t).Some?
    ensures IsMatchAt(t, p, k) && Match(t) == Some(EntryAt(t, p, k))
  {
    p := PrefixLength(t);
    k := NameSpan(t[p..]);
  }

  lemma EntryShows(t: string, p: nat, k: nat)
    requires p + k < |t| && t[p + k] == '='
    ensures Show(EntryAt(t, p, k)) == t
  {
  }

  /** The pieces of a match make up the line. */
  lemma MatchShows(body: string)
    requires Match(body).Some?
    ensures Show(Match(body).value) == body
  {
    var p, k := MatchParts(body);
    EntryShows(body, p, k);
  }

  /** Replacing the value leaves the pieces before it in place. */
  lemma EntryReplaced(t: string, p: nat, k: nat, value: string)
    requires p + k < |t| && t[p + k] == '='
    ensures var other := Show(EntryAt(t, p, k).(value := value));
            AgreeTo(t, other, p + k + 1) && p + k < |other| && EntryAt(other, p, k) == EntryAt(t, p, k).(value := value)
  {
    var other := Show(EntryAt(t, p, k).(value := value));
    assert other[..p] == t[..p] && other[p..p + k] == t[p..p + k] && other[p + k + 1..] == value;
  }

  lemma SameMatch(s: string, t: string, p: nat, k: nat)
    requires IsMatchAt(s, p, k) && AgreeTo(s, t, p + k + 1)
    ensures IsMatchAt(t, p, k)
  {
    PrefixAgrees(s, t, p, k);
    AgreeFrom(s, t, p + k + 1, p);
    NameSpanAgrees(s[p..], t[p..], k + 1);
  }

  /** Only what comes before the value decides how a line matches. */
  lemma MatchAgrees(body: string, value: string)
    requires Match(body).Some?
    ensures Match(Show(Match(body).value.(value := value))) == Some(Match(body).value.(value := value))
  {
    var p, k := MatchParts(body);
    EntryReplaced(body, p, k, value);
    var other := Show(EntryAt(body, p, k).(value := value));
    SameMatch(body, other, p, k);
    MatchAt(other, p, k);
  }

  lemma PrefixAgrees(s: string, t: string, p: nat, k: nat)
    requires p == PrefixLength(s) && k == NameSpan(s[p..]) && k > 0 && p + k < |s| && s[p + k] == '='
    requires AgreeTo(s, t, p + k + 1)
    ensures PrefixLength(t) == p
  {
    var a := Spaces(s);
    SpacesAgree(s, t, p + k + 1);
    if HasExport(s, a) {
      ExportAgrees(s, t, p + k + 1, a);
    } else {
      NameIsNoExport(s, t, a, k);
    }
  }

  lemma NameIsNoExport(s: string, t: string, a: nat, k: nat)
    requires a + k < |s| && k <= NameSpan(s[a..]) && s[a + k] == '=' && AgreeTo(s, t, a + k + 1)
    ensures !HasExport(t, a)
  {
    NameChars(s, t, a, k);
    NoExport(t, a, k);
  }

  lemma ExportAgrees(s: string, t: string, n: nat, a: nat)
    requires AgreeTo(s, t, n) && HasExport(s, a) && a + 6 + Spaces(s[a + 6..]) < n
    ensures HasExport(t, a) && Spaces(t[a + 6..]) == Spaces(s[a + 6..])
  {
    assert t[a..a + 6] == s[a..a + 6];
    AgreeFrom(s, t, n, a + 6);
    SpacesAgree(s[a + 6..], t[a + 6..], n - (a + 6));
  }

  lemma NameChars(s: string, t: string, a: nat, k: nat)
    requires a <= |s| && k <= NameSpan(s[a..]) && AgreeTo(s, t, a + k)
    ensures forall i | a <= i < a + k :: IsNameChar(t[i])
  {
    forall i | a <= i < a + k ensures IsNameChar(t[i]) {
      assert IsNameChar(s[a..][i - a]);
    }
  }

  /** A name followed by `=` is not `export` followed by a space. */
  lemma NoExport(t: string, a: nat, k: nat)
    requires a + k < |t| && t[a + k] == '=' && forall i | a <= i < a + k :: IsNameChar(t[i])
    ensures !HasExport(t, a)
  {
    assert forall c <- "export" :: c != '=';
    if k < 6 && a + 6 < |t| {
      assert t[a..a + 6][k] == '=' && t[a..a + 6][k] in t[a..a + 6];
    } else if k > 6 {
      assert IsNameChar(t[a + 6]);
    }
  }

  // ----- the pattern itself -----

  predicate AllSpace(s: string) {
    forall c <- s :: IsSpace(c)
  }

  /** Space, or space, `export` and at least one more space character. */
  predicate IsPrefix(x: string) {
    AllSpace(x) || exists i | 0 <= i < |x| :: IsExportAt(x, i)
  }

  predicate IsExportAt(x: string, i: nat)
    requires i <= |x|
  {
    AllSpace(x[..i]) && i + 6 < |x| && x[i..i + 6] == "export" && AllSpace(x[i + 6..])
  }

  predicate IsKey(k: string) {
    k != [] && !('0' <= k[0] <= '9') && forall c <- k :: IsNameChar(c)
  }

  /** The line is a prefix, a key, an equals sign and a value, in whatever way it can be cut. */
  predicate IsEntryOf(body: string, e: Entry) {
    body == Show(e) && IsPrefix(e.prefix) && IsKey(e.key)
  }

  lemma {:induction false} SpacesOf(s: string, n: nat)
    requires n < |s| && AllSpace(s[..n]) && !IsSpace(s[n])
    ensures Spaces(s) == n
    decreases n
  {
    if n > 0 {
      assert s[..n][0] == s[0] && s[0] in s[..n] && s[1..][..n - 1] == s[..n][1..];
      assert forall c <- s[1..][..n - 1] :: c in s[..n];
      SpacesOf(s[1..], n - 1);
    }
  }

  lemma {:induction false} NameSpanOf(s: string, n: nat)
    requires n < |s| && (forall c <- s[..n] :: IsNameChar(c)) && !IsNameChar(s[n])
    ensures NameSpan(s) == n
    decreases n
  {
    if n > 0 {
      assert s[..n][0] == s[0] && s[0] in s[..n] && s[1..][..n - 1] == s[..n][1..];
      assert forall c <- s[1..][..n - 1] :: c in s[..n];
      NameSpanOf(s[1..], n - 1);
    }
  }

  lemma {:induction false} SpacesAreSpace(s: string)
    ensures AllSpace(s[..Spaces(s)])
    decreases |s|
  {
    if Spaces(s) > 0 {
      SpacesAreSpace(s[1..]);
      assert s[..Spaces(s)] == [s[0]] + s[1..][..Spaces(s[1..])];
    }
  }

  lemma PrefixFound(body: string)
    ensures IsPrefix(body[..PrefixLength(body)])
  {
    var a := Spaces(body);
    SpacesAreSpace(body);
    if HasExport(body, a) {
      var rest := body[a + 6..];
      var x := body[..PrefixLength(body)];
      SpacesAreSpace(rest);
      assert Spaces(rest) > 0 by { assert rest[0] == body[a + 6]; }
      assert x[..a] == body[..a] && x[a..a + 6] == body[a..a + 6] && x[a + 6..] == rest[..Spaces(rest)];
      assert IsExportAt(x, a);
    }
  }

  /** A line that can be cut at `p` is cut there. */
  lemma PrefixIs(body: string, p: nat, k: nat)
    requires p + k < |body| && k > 0 && IsPrefix(body[..p]) && body[p + k] == '='
    requires forall i | p <= i < p + k :: IsNameChar(body[i])
    ensures PrefixLength(body) == p
  {
    var x := body[..p];
    assert IsNameChar(body[p]) && !IsSpace(body[p]);
    if AllSpace(x) {
      SpacesOf(body, p);
      NoExport(body, p, k);
    } else {
      var i :| 0 <= i < |x| && IsExportAt(x, i);
      ExportIs(body, p, i);
    }
  }

  lemma ExportIs(body: string, p: nat, i: nat)
    requires p < |body| && i <= p && IsExportAt(body[..p], i) && !IsSpace(body[p])
    ensures PrefixLength(body) == p
  {
    var x := body[..p];
    assert x[i..i + 6] == body[i..i + 6] && body[i] == "export"[0] == 'e' && x[..i] == body[..i];
    SpacesOf(body, i);
    assert x[i + 6..][0] == body[i + 6] && body[i + 6] in x[i + 6..];
    assert HasExport(body, i);
    var rest := body[i + 6..];
    assert rest[..p - (i + 6)] == x[i + 6..] && rest[p - (i + 6)] == body[p];
    SpacesOf(rest, p - (i + 6));
  }

  lemma ShowIndices(e: Entry, p: nat, k: nat)
    requires p == |e.prefix| && k == |e.key|
    ensures var t := Show(e); p + k < |t| && t[p + k] == '=' && EntryAt(t, p, k) == e
  {
    var t := Show(e);
    assert t[..p] == e.prefix && t[p..p + k] == e.key && t[p + k + 1..] == e.value;
  }

  lemma PatternFound(body: string, e: Entry, p: nat, k: nat)
    requires p + k < |body| && body[p + k] == '=' && EntryAt(body, p, k) == e && IsPrefix(e.prefix) && IsKey(e.key)
    ensures Match(body) == Some(e)
  {
    var rest := body[p..];
    assert rest[..k] == e.key && rest[k] == '=' && rest[0] == e.key[0];
    forall i | p <= i < p + k ensures IsNameChar(body[i]) {
      assert e.key[i - p] == body[i] && e.key[i - p] in e.key;
    }
    PrefixIs(body, p, k);
    NameSpanOf(rest, k);
    MatchAt(body, p, k);
  }

  /** The pattern finds exactly the entries that a line can be cut into, and there is at most one. */
  lemma MatchIsPattern(body: string, e: Entry)
    ensures Match(body) == Some(e) <==> IsEntryOf(body, e)
  {
    if Match(body) == Some(e) {
      var p, k := MatchParts(body);
      EntryShows(body, p, k);
      PrefixFound(body);
      KeyFound(body, p, k);
    }
    if IsEntryOf(body, e) {
      ShowIndices(e, |e.prefix|, |e.key|);
      PatternFound(body, e, |e.prefix|, |e.key|);
    }
  }

  lemma KeyFound(body: string, p: nat, k: nat)
    requires IsMatchAt(body, p, k)
    ensures IsKey(body[p..p + k])
  {
    forall c <- body[p..p + k] ensures IsNameChar(c) {
      var i :| 0 <= i < k && body[p..p + k][i] == c;
      assert body[p..][i] == c;
    }
  }

  // ----- replacing -----

  function Ending(line: string): string {
    if |line| >= 2 && line[|line| - 2] == '\r' && line[|line| - 1] == '\n' then "\r\n"
    else if line != [] && line[|line| - 1] == '\n' then "\n" else ""
  }

  function Body(line: string): string {
    line[..|line| - |Ending(line)|]
  }

  function KeyOf(line: string): Option<string> {
    match Match(Body(line))
    case None => None
    case Some(e) => Some(e.key)
  }

  type Replacements = map<string, string>

  predicate IsNamed(line: string, replacements: Replacements) {
    KeyOf(line).Some? && KeyOf(line).value in replacements
  }

  /** The line that takes a line's place. */
  function NewLine(line: string, replacements: Replacements): string {
    if IsNamed(line, replacements) then
      var e := Match(Body(line)).value;
      Show(e.(value := replacements[e.key])) + Ending(line)
    else line
  }

  function NewLines(lines: seq<string>, replacements: Replacements): (r: seq<string>)
    ensures |r| == |lines| && forall i | 0 <= i < |r| :: r[i] == NewLine(lines[i], replacements)
  {
    seq(|lines|, i requires 0 <= i < |lines| => NewLine(lines[i], replacements))
  }

  datatype EnvError = Duplicate | Missing

  ghost predicate OccursTwice(lines: seq<string>, replacements: Replacements) {
    exists i, j | 0 <= i < j < |lines| :: IsNamed(lines[i], replacements) && KeyOf(lines[i]) == KeyOf(lines[j])
  }

  predicate Occurs(lines: seq<string>, key: string) {
    exists i | 0 <= i < |lines| :: KeyOf(lines[i]) == Some(key)
  }

  /** What the rewritten file holds, or why there is none. */
  ghost function Rewrite(raw: string, replacements: Replacements): Result<string, EnvError> {
    RewriteLines(Lines(raw), replacements)
  }

  ghost function RewriteLines(lines: seq<string>, replacements: Replacements): Result<string, EnvError> {
    if OccursTwice(lines, replacements) then Err(Duplicate)
    else if forall key <- replacements :: Occurs(lines, key) then Ok(Join(NewLines(lines, replacements)))
    else Err(Missing)
  }

  /** One turn of the loop, when the line's key has not been seen before. */
  lemma LoopKeeps(past: seq<string>, line: string, replacements: Replacements, found: set<string>)
    requires forall key :: key in found <==> key in replacements && Occurs(past, key)
    requires !OccursTwice(past, replacements) && (IsNamed(line, replacements) ==> KeyOf(line).value !in found)
    ensures var more := found + if IsNamed(line, replacements) then {KeyOf(line).value} else {};
            forall key :: key in more <==> key in replacements && Occurs(past + [line], key)
    ensures !OccursTwice(past + [line], replacements)
    ensures NewLines(past + [line], replacements) == NewLines(past, replacements) + [NewLine(line, replacements)]
  {
    NotTwice(past, line, replacements);
    OccursOneMore(past, line);
    NewLinesOneMore(past, line, replacements);
  }

  lemma NewLinesOneMore(past: seq<string>, line: string, replacements: Replacements)
    ensures NewLines(past + [line], replacements) == NewLines(past, replacements) + [NewLine(line, replacements)]
  {
  }

  lemma SeenTwice(lines: seq<string>, i: nat, replacements: Replacements)
    requires i < |lines| && IsNamed(lines[i], replacements) && Occurs(lines[..i], KeyOf(lines[i]).value)
    ensures OccursTwice(lines, replacements)
  {
    var j :| 0 <= j < i && KeyOf(lines[..i][j]) == KeyOf(lines[i]);
    assert IsNamed(lines[j], replacements) && KeyOf(lines[j]) == KeyOf(lines[i]);
  }

  /** The loop over the lines; keys are found at most once, and all of them. */
  method ReplaceLines(lines: seq<string>, replacements: Replacements) returns (r: Result<seq<string>, EnvError>)
    ensures r == if OccursTwice(lines, replacements) then Err(Duplicate)
                 else if forall key <- replacements :: Occurs(lines, key) then Ok(NewLines(lines, replacements))
                 else Err(Missing)
  {
    var found: set<string> := {};
    var output: seq<string> := [];
    for i := 0 to |lines|
      invariant output == NewLines(lines[..i], replacements)
      invariant forall key :: key in found <==> key in replacements && Occurs(lines[..i], key)
      invariant !OccursTwice(lines[..i], replacements)
    {
      var line := lines[i];
      assert lines[..i + 1] == lines[..i] + [line];
      var key := KeyOf(line);
      if key.Some? && key.value in replacements {
        if key.value in found {
          SeenTwice(lines, i, replacements);
          return Err(Duplicate);
        }
        LoopKeeps(lines[..i], line, replacements, found);
        found := found + {key.value};
      } else {
        LoopKeeps(lines[..i], line, replacements, found);
      }
      output := output + [NewLine(line, replacements)];
    }
    assert lines[..|lines|] == lines;
    if !(replacements.Keys <= found) {
      return Err(Missing);
    }
    r := Ok(output);
  }

  /**
   Succeeds exactly when every named key has exactly one line; then those lines carry the new
   values and every other line is as it was read.
   */
  method ReplaceEnvValues(raw: string, replacements: Replacements) returns (r: Result<string, EnvError>)
    ensures r == Rewrite(raw, replacements)
  {
    var lines := ReplaceLines(Lines(raw), replacements);
    r := if lines.Ok? then Ok(Join(lines.value)) else Err(lines.error);
  }

  lemma OccursOneMore(past: seq<string>, line: string)
    ensures forall key :: Occurs(past + [line], key) <==> Occurs(past, key) || KeyOf(line) == Some(key)
  {
    var more := past + [line];
    forall key ensures Occurs(more, key) <==> Occurs(past, key) || KeyOf(line) == Some(key) {
      if Occurs(past, key) {
        var i :| 0 <= i < |past| && KeyOf(past[i]) == Some(key);
        assert more[i] == past[i];
      }
      assert more[|past|] == line;
      if Occurs(more, key) && KeyOf(line) != Some(key) {
        var i :| 0 <= i < |more| && KeyOf(more[i]) == Some(key);
        assert past[i] == more[i];
      }
    }
  }

  lemma NotTwice(past: seq<string>, line: string, replacements: Replacements)
    requires !OccursTwice(past, replacements)
    requires IsNamed(line, replacements) ==> !Occurs(past, KeyOf(line).value)
    ensures !OccursTwice(past + [line], replacements)
  {
    var more := past + [line];
    forall i, j | 0 <= i < j < |more| ensures !(IsNamed(more[i], replacements) && KeyOf(more[i]) == KeyOf(more[j])) {
      assert more[i] == past[i];
      if j < |past| {
        assert more[j] == past[j];
      } else if IsNamed(line, replacements) {
        assert !Occurs(past, KeyOf(line).value);
      }
    }
  }

  // ----- what a rewritten file says -----

  /** The value that a line gives a key, if any. */
  function Said(line: string, key: string): seq<string> {
    if KeyOf(line) == Some(key) then [Match(Body(line)).value.value] else []
  }

  /** The values that the lines give a key, in order. */
  function Values(lines: seq<string>, key: string): seq<string> {
    if lines == [] then [] else Said(lines[0], key) + Values(lines[1..], key)
  }

  ghost predicate IsPlainValue(value: string) {
    forall c <- value :: !IsBreak(c)
  }

  ghost predicate ArePlainValues(replacements: Replacements) {
    forall key <- replacements :: IsPlainValue(replacements[key])
  }

  /** The value, put in the place of this line's value, makes a line that is whole again. */
  predicate Fits(line: string, value: string, last: bool) {
    IsWhole(['='] + value + Ending(line), last)
  }

  /** A value without breaks fits where the line feed that ends its line survives the rewriting. */
  lemma PlainFits(line: string, value: string, last: bool)
    requires IsWhole(line, last) && IsPlainValue(value)
    ensures Fits(line, value, last) <==> Ending(line) == "\n" || last
  {
    var text := ['='] + value + Ending(line);
    assert forall i | 0 < i <= |value| :: text[i] == value[i - 1] && value[i - 1] in value;
    assert '\r' !in text;
  }

  /** Without a break in front of it, only the end of a line decides whether it is whole. */
  lemma WholeEnd(front: string, text: string, last: bool)
    requires IsPlainValue(front) && text != []
    ensures IsWhole(front + text, last) <==> IsWhole(text, last)
  {
    var line := front + text;
    assert forall i | 0 <= i < |front| :: line[i] == front[i] && front[i] in front;
    assert forall i | 0 <= i < |text| :: line[i + |front|] == text[i];
    assert '\r' in line <==> '\r' in text by {
      assert '\r' in front ==> IsBreak('\r');
    }
  }

  lemma FrontOfLine(line: string, front: string)
    requires IsWhole(line, true) && |front| < |line| && line[..|front|] == front
    ensures IsPlainValue(front)
  {
    forall c <- front ensures !IsBreak(c) {
      var i :| 0 <= i < |front| && front[i] == c;
      assert line[..|front|][i] == line[i];
    }
  }

  lemma ShowFront(e: Entry)
    ensures |e.prefix + e.key| < |Show(e)| && Show(e)[..|e.prefix + e.key|] == e.prefix + e.key
  {
    ShowSplits(e, "");
    assert Show(e) + "" == Show(e);
  }

  /** The break of a line comes after its `=`. */
  lemma FrontIsPlain(line: string)
    requires IsWhole(line, true) && KeyOf(line).Some?
    ensures var e := Match(Body(line)).value; IsPlainValue(e.prefix + e.key)
  {
    var e := Match(Body(line)).value;
    MatchShows(Body(line));
    ShowFront(e);
    var front := e.prefix + e.key;
    assert line[..|front|] == Body(line)[..|front|];
    FrontOfLine(line, front);
  }

  lemma NewLineFits(line: string, last: bool, replacements: Replacements)
    requires IsWhole(line, last) && IsNamed(line, replacements)
    ensures IsWhole(NewLine(line, replacements), last) <==> Fits(line, replacements[KeyOf(line).value], last)
  {
    var e := Match(Body(line)).value;
    FrontIsPlain(line);
    ShowSplits(e.(value := replacements[e.key]), Ending(line));
    WholeEnd(e.prefix + e.key, ['='] + replacements[e.key] + Ending(line), last);
  }

  lemma ShowSplits(e: Entry, ending: string)
    ensures Show(e) + ending == (e.prefix + e.key) + (['='] + e.value + ending)
  {
  }

  /** Every new value fits its line. */
  ghost predicate AllFit(lines: seq<string>, replacements: Replacements) {
    forall i | 0 <= i < |lines| && IsNamed(lines[i], replacements) ::
      Fits(lines[i], replacements[KeyOf(lines[i]).value], i == |lines| - 1)
  }

  lemma NewLinesAreWhole(lines: seq<string>, replacements: Replacements)
    requires AreWhole(lines)
    ensures AreWhole(NewLines(lines, replacements)) <==> AllFit(lines, replacements)
  {
    var more := NewLines(lines, replacements);
    forall i | 0 <= i < |lines|
      ensures IsWhole(more[i], i == |more| - 1)
              <==> (IsNamed(lines[i], replacements) ==> Fits(lines[i], replacements[KeyOf(lines[i]).value], i == |lines| - 1))
    {
      assert IsWhole(lines[i], i == |lines| - 1);
      if IsNamed(lines[i], replacements) {
        NewLineFits(lines[i], i == |lines| - 1, replacements);
      }
    }
  }

  /**
   The rewritten file reads back as the lines meant, the named ones with their new values and
   every other line as it was, exactly when each value fits its line.
   */
  lemma RewriteReadsBack(raw: string, replacements: Replacements)
    ensures Lines(Join(NewLines(Lines(raw), replacements))) == NewLines(Lines(raw), replacements)
            <==> AllFit(Lines(raw), replacements)
  {
    SplitIsWhole(Translate(raw));
    NewLinesAreWhole(Lines(raw), replacements);
    LinesReadBack(NewLines(Lines(raw), replacements));
  }

  /** It can fail: a line ended by any other break loses it, and runs into the next line. */
  lemma StrayBreakJoinsLines() returns (raw: string, replacements: Replacements)
    ensures Rewrite(raw, replacements).Ok? && ArePlainValues(replacements)
    ensures Lines(Rewrite(raw, replacements).value) != NewLines(Lines(raw), replacements)
  {
    var line, next := "A=\U{000B}", "B\n";
    replacements := map["A" := ""];
    raw := Join([line, next]);
    StrayKeys();
    StrayJoins(line, next, replacements);
  }

  lemma StrayKeys()
    ensures KeyOf("A=\U{000B}") == Some("A") && KeyOf("B\n").None?
  {
    var line, next := "A=\U{000B}", "B\n";
    assert Body(line) == line && line[0..] == line && line[1..] == "=\U{000B}" && NameSpan("=\U{000B}") == 0;
    MatchAt(line, 0, 1);
    assert EntryAt(line, 0, 1).key == "A";
    assert Body(next) == "B" && "B"[0..] == "B" && "B"[1..] == "";
  }

  lemma StrayJoins(line: string, next: string, replacements: Replacements)
    requires AreWhole([line, next]) && Ending(line) == "" && replacements.Keys == {"A"} && replacements["A"] == ""
    requires KeyOf(line) == Some("A") && KeyOf(next).None?
    ensures var raw := Join([line, next]);
            Rewrite(raw, replacements).Ok? && Lines(Rewrite(raw, replacements).value) != NewLines(Lines(raw), replacements)
  {
    var lines := [line, next];
    LinesReadBack(lines);
    assert !OccursTwice(lines, replacements);
    assert KeyOf(lines[0]) == Some("A") && IsNamed(lines[0], replacements) && !Fits(lines[0], "", false);
    RewriteReadsBack(Join(lines), replacements);
  }

  predicate EndsInLineFeed(value: string) {
    value != [] && value[|value| - 1] == '\n'
  }

  /** The value without the line feed at its end, which is read as the end of the line. */
  function Chomped(value: string): string {
    if EndsInLineFeed(value) then value[..|value| - 1] else value
  }

  /** How a written line is taken apart again. */
  lemma ShownParts(e: Entry, ending: string)
    requires IsWhole(['='] + e.value + ending, true) && (ending == "" || ending == "\n")
    ensures Ending(Show(e) + ending) == if EndsInLineFeed(e.value) then "\n" else ending
    ensures Body(Show(e) + ending) == Show(e.(value := Chomped(e.value)))
    ensures EndsInLineFeed(e.value) ==> ending == ""
  {
    var front, text := e.prefix + e.key, ['='] + e.value + ending;
    ShowSplits(e, ending);
    var line := front + text;
    assert |text| >= 2 ==> text[|text| - 2] in text;
    assert |line| >= 2 && text != [] ==> line[|line| - 1] == text[|text| - 1];
    assert |text| >= 2 ==> line[|line| - 2] == text[|text| - 2];
    if EndsInLineFeed(e.value) {
      assert text[|e.value|] == '\n';
    }
    ShowSplits(e.(value := Chomped(e.value)), "");
  }

  lemma WholeEnding(line: string)
    requires IsWhole(line, true)
    ensures Ending(line) == "\n" || Ending(line) == ""
  {
    assert |line| >= 2 ==> line[|line| - 2] in line;
  }

  /** A line rewritten with a fitting value keeps its key, and has the value but for a line feed at its end. */
  lemma NewLineReads(line: string, replacements: Replacements)
    requires IsWhole(line, true) && IsNamed(line, replacements) && Fits(line, replacements[KeyOf(line).value], true)
    ensures var e := Match(Body(line)).value;
            var value := replacements[e.key];
            var more := NewLine(line, replacements);
            Match(Body(more)) == Some(e.(value := Chomped(value)))
            && (EndsInLineFeed(value) ==> Ending(line) == "")
            && Ending(more) == if EndsInLineFeed(value) then "\n" else Ending(line)
  {
    var e := Match(Body(line)).value;
    WholeEnding(line);
    ShownParts(e.(value := replacements[e.key]), Ending(line));
    MatchAgrees(Body(line), Chomped(replacements[e.key]));
  }

  /** Rewriting a rewritten line leaves it alone, unless its value ends in a line feed: then it gains one. */
  lemma NewLineTwice(line: string, replacements: Replacements)
    requires IsWhole(line, true) && IsNamed(line, replacements) && Fits(line, replacements[KeyOf(line).value], true)
    ensures var more := NewLine(line, replacements);
            KeyOf(more) == KeyOf(line)
            && NewLine(more, replacements)
               == if EndsInLineFeed(replacements[KeyOf(line).value]) then more + ['\n'] else more
  {
    NewLineReads(line, replacements);
    var value := replacements[KeyOf(line).value];
    var e := Match(Body(line)).value;
    assert e.(value := Chomped(value)).(value := value) == e.(value := value);
    assert Show(e.(value := value)) + "" == Show(e.(value := value));
  }

  lemma WholeLines(raw: string)
    ensures AreWhole(Lines(raw)) && forall line <- Lines(raw) :: IsWhole(line, true)
  {
    SplitIsWhole(Translate(raw));
    forall line <- Lines(raw) ensures IsWhole(line, true) {
      var i :| 0 <= i < |Lines(raw)| && Lines(raw)[i] == line;
      assert IsWhole(Lines(raw)[i], i == |Lines(raw)| - 1);
    }
  }

  lemma {:induction false} JoinLonger(lines: seq<string>, more: seq<string>)
    requires |lines| == |more| && forall i | 0 <= i < |lines| :: |lines[i]| <= |more[i]|
    ensures |Join(lines)| <= |Join(more)|
    ensures (exists i | 0 <= i < |lines| :: |lines[i]| < |more[i]|) ==> |Join(lines)| < |Join(more)|
    decreases |lines|
  {
    if lines != [] {
      var rest, others := lines[1..], more[1..];
      assert forall i | 0 <= i < |rest| :: rest[i] == lines[i + 1] && others[i] == more[i + 1];
      JoinLonger(rest, others);
      if i :| 0 <= i < |lines| && |lines[i]| < |more[i]| && i > 0 {
        assert |rest[i - 1]| < |others[i - 1]|;
      }
    }
  }

  /** No line is named that gets a value ending in a line feed. */
  ghost predicate NoneEndsInLineFeed(lines: seq<string>, replacements: Replacements) {
    forall i | 0 <= i < |lines| && IsNamed(lines[i], replacements) :: !EndsInLineFeed(replacements[KeyOf(lines[i]).value])
  }

  lemma NewLinesTwice(lines: seq<string>, replacements: Replacements)
    requires AreWhole(lines) && AllFit(lines, replacements)
    ensures var more := NewLines(lines, replacements);
            HaveSameKeys(lines, more)
            && (Join(NewLines(more, replacements)) == Join(more) <==> NoneEndsInLineFeed(lines, replacements))
  {
    var more := NewLines(lines, replacements);
    var again := NewLines(more, replacements);
    forall i | 0 <= i < |lines|
      ensures KeyOf(more[i]) == KeyOf(lines[i])
      ensures again[i] == if IsNamed(lines[i], replacements) && EndsInLineFeed(replacements[KeyOf(lines[i]).value])
                          then more[i] + ['\n'] else more[i]
    {
      assert IsWhole(lines[i], i == |lines| - 1);
      if IsNamed(lines[i], replacements) {
        NewLineTwice(lines[i], replacements);
      }
    }
    JoinLonger(more, again);
    if NoneEndsInLineFeed(lines, replacements) {
      assert again == more;
    } else {
      var i :| 0 <= i < |lines| && IsNamed(lines[i], replacements) && EndsInLineFeed(replacements[KeyOf(lines[i]).value]);
      assert |more[i]| < |again[i]|;
    }
  }

  ghost predicate HaveSameKeys(lines: seq<string>, more: seq<string>) {
    |lines| == |more| && forall i | 0 <= i < |lines| :: KeyOf(more[i]) == KeyOf(lines[i])
  }

  /** Lines with the same keys are rewritten with the same success. */
  lemma SameKeysSameSuccess(lines: seq<string>, more: seq<string>, replacements: Replacements)
    requires HaveSameKeys(lines, more)
    ensures RewriteLines(more, replacements).Ok? <==> RewriteLines(lines, replacements).Ok?
  {
    if OccursTwice(lines, replacements) {
      var i, j :| 0 <= i < j < |lines| && IsNamed(lines[i], replacements) && KeyOf(lines[i]) == KeyOf(lines[j]);
      assert IsNamed(more[i], replacements) && KeyOf(more[i]) == KeyOf(more[j]);
    }
    if OccursTwice(more, replacements) {
      var i, j :| 0 <= i < j < |more| && IsNamed(more[i], replacements) && KeyOf(more[i]) == KeyOf(more[j]);
      assert IsNamed(lines[i], replacements) && KeyOf(lines[i]) == KeyOf(lines[j]);
    }
    forall key <- replacements ensures Occurs(more, key) <==> Occurs(lines, key) {
      if Occurs(lines, key) {
        var i :| 0 <= i < |lines| && KeyOf(lines[i]) == Some(key);
        assert KeyOf(more[i]) == Some(key);
      }
    }
  }

  lemma NamedByKeys(lines: seq<string>, replacements: Replacements)
    requires RewriteLines(lines, replacements).Ok?
    ensures NoneEndsInLineFeed(lines, replacements) <==> forall key <- replacements :: !EndsInLineFeed(replacements[key])
  {
    forall key <- replacements | NoneEndsInLineFeed(lines, replacements) ensures !EndsInLineFeed(replacements[key]) {
      var i :| 0 <= i < |lines| && KeyOf(lines[i]) == Some(key);
      assert IsNamed(lines[i], replacements);
    }
  }

  lemma RewrittenLines(lines: seq<string>, replacements: Replacements)
    requires RewriteLines(lines, replacements).Ok?
    ensures RewriteLines(lines, replacements).value == Join(NewLines(lines, replacements))
  {
  }

  lemma RewriteLinesTwice(lines: seq<string>, replacements: Replacements)
    requires AreWhole(lines) && AllFit(lines, replacements) && RewriteLines(lines, replacements).Ok?
    ensures var again := RewriteLines(NewLines(lines, replacements), replacements);
            again.Ok?
            && (again.value == RewriteLines(lines, replacements).value <==> forall key <- replacements :: !EndsInLineFeed(replacements[key]))
  {
    NewLinesTwice(lines, replacements);
    SameKeysSameSuccess(lines, NewLines(lines, replacements), replacements);
    NamedByKeys(lines, replacements);
    RewrittenLines(lines, replacements);
    RewrittenLines(NewLines(lines, replacements), replacements);
  }

  /**
   Where every value fits its line, rewriting a second time succeeds, and leaves the file as it is
   exactly when no value ends in a line feed.
   */
  lemma RewriteTwice(raw: string, replacements: Replacements)
    requires AllFit(Lines(raw), replacements)
    ensures Rewrite(raw, replacements).Ok? ==>
              var out := Rewrite(raw, replacements).value;
              Rewrite(out, replacements).Ok?
              && (Rewrite(out, replacements).value == out <==> forall key <- replacements :: !EndsInLineFeed(replacements[key]))
  {
    WholeLines(raw);
    RewriteReadsBack(raw, replacements);
    if Rewrite(raw, replacements).Ok? {
      RewriteLinesTwice(Lines(raw), replacements);
    }
  }

  /** A value that ends in a line feed fits the last line of a file, and grows the file at every rewriting. */
  lemma LineFeedGrowsFile() returns (raw: string, replacements: Replacements)
    ensures AllFit(Lines(raw), replacements) && Rewrite(raw, replacements).Ok?
    ensures Rewrite(Rewrite(raw, replacements).value, replacements) != Rewrite(raw, replacements)
  {
    raw, replacements := "A=", map["A" := "\n"];
    BareKey('A');
    assert raw == ['A'] + "=" && "A" == ['A'];
    OneLineGrows(raw, replacements);
  }

  lemma BareKey(c: char)
    requires IsNameChar(c) && !('0' <= c <= '9')
    ensures KeyOf([c] + "=") == Some([c]) && IsWhole([c] + "=", true) && Ending([c] + "=") == ""
  {
    var line := [c] + "=";
    assert Body(line) == line && line[0..] == line && line[1..] == "=" && NameSpan("=") == 0;
    MatchAt(line, 0, 1);
    assert EntryAt(line, 0, 1).key == [c];
  }

  lemma OneLineGrows(line: string, replacements: Replacements)
    requires IsWhole(line, true) && Ending(line) == "" && KeyOf(line) == Some("A") && replacements == map["A" := "\n"]
    ensures AllFit(Lines(line), replacements) && Rewrite(line, replacements).Ok?
    ensures Rewrite(Rewrite(line, replacements).value, replacements) != Rewrite(line, replacements)
  {
    var lines := [line];
    assert Lines(line) == lines by {
      LinesReadBack(lines);
      assert Join(lines) == line;
    }
    LineFeedFits(line);
    assert KeyOf(lines[0]) == Some("A") && !OccursTwice(lines, replacements);
    RewriteTwice(line, replacements);
    assert EndsInLineFeed(replacements["A"]);
  }

  lemma LineFeedFits(line: string)
    requires Ending(line) == ""
    ensures Fits(line, "\n", true)
  {
    assert ['='] + "\n" + "" == "=\n";
  }

  lemma NewLinesFirst(lines: seq<string>, replacements: Replacements)
    requires lines != []
    ensures lines == [lines[0]] + lines[1..]
    ensures NewLines(lines, replacements) == [NewLine(lines[0], replacements)] + NewLines(lines[1..], replacements)
  {
  }

  lemma FirstValues(line: string, rest: seq<string>, key: string)
    ensures Values([line] + rest, key) == Said(line, key) + Values(rest, key)
  {
    assert ([line] + rest)[1..] == rest;
  }

  /** Every named line takes its new value as a line of its own. */
  ghost predicate EachFits(lines: seq<string>, replacements: Replacements) {
    forall line <- lines | IsNamed(line, replacements) :: Fits(line, replacements[KeyOf(line).value], true)
  }

  /** How many lines carry a key does not change, nor what the lines of other keys say. */
  lemma {:induction false} ValuesAfter(lines: seq<string>, replacements: Replacements, key: string)
    requires (forall line <- lines :: IsWhole(line, true)) && EachFits(lines, replacements)
    ensures |Values(NewLines(lines, replacements), key)| == |Values(lines, key)|
    ensures key !in replacements ==> Values(NewLines(lines, replacements), key) == Values(lines, key)
    ensures key in replacements ==> forall v <- Values(NewLines(lines, replacements), key) :: v == Chomped(replacements[key])
    decreases |lines|
  {
    if lines != [] {
      var line, rest := lines[0], lines[1..];
      ValuesAfter(rest, replacements, key);
      NewLinesFirst(lines, replacements);
      FirstValues(line, rest, key);
      FirstValues(NewLine(line, replacements), NewLines(rest, replacements), key);
      if IsNamed(line, replacements) {
        NewLineReads(line, replacements);
      }
    }
  }
}
