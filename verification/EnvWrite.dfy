/**
 What writing one secret makes an environment file say: when the file holds the secret
 afterwards, and what becomes of its other entries.
 */
module EnvWrite {

  import opened Common
  import opened EnvFile

  /** The file gives this key exactly this value, once. */
  ghost predicate Holds(raw: string, key: string, value: string) {
    Values(Lines(raw), key) == [value]
  }

  // ----- one write -----

  ghost predicate HasTwo<T(!new)>(s: seq<T>, x: T) {
    exists i, j | 0 <= i < j < |s| :: s[i] == x && s[j] == x
  }

  ghost function Count<T(!new)>(s: seq<T>, x: T): nat {
    if s == [] then 0 else (if s[0] == x then 1 else 0) + Count(s[1..], x)
  }

  lemma {:induction false} CountMeans<T(!new)>(s: seq<T>, x: T)
    ensures x in s <==> Count(s, x) > 0
    ensures HasTwo(s, x) <==> Count(s, x) > 1
    decreases |s|
  {
    if s != [] {
      var rest := s[1..];
      CountMeans(rest, x);
      assert forall i | 0 <= i < |rest| :: rest[i] == s[i + 1];
      if HasTwo(s, x) {
        var i, j :| 0 <= i < j < |s| && s[i] == x && s[j] == x;
        assert rest[j - 1] == x;
        assert i > 0 ==> rest[i - 1] == x;
      }
      if HasTwo(rest, x) {
        var i, j :| 0 <= i < j < |rest| && rest[i] == x && rest[j] == x;
        assert s[i + 1] == x && s[j + 1] == x;
      }
      if s[0] == x && x in rest {
        var j :| 0 <= j < |rest| && rest[j] == x;
        assert s[0] == x && s[j + 1] == x;
      }
    }
  }

  function Keys(lines: seq<string>): (keys: seq<Option<string>>)
    ensures |keys| == |lines| && forall i | 0 <= i < |lines| :: keys[i] == KeyOf(lines[i])
  {
    seq(|lines|, i requires 0 <= i < |lines| => KeyOf(lines[i]))
  }

  lemma {:induction false} ValuesCount(lines: seq<string>, key: string)
    ensures |Values(lines, key)| == Count(Keys(lines), Some(key))
    decreases |lines|
  {
    if lines != [] {
      ValuesCount(lines[1..], key);
      assert Keys(lines)[1..] == Keys(lines[1..]);
    }
  }

  /** A write of one key succeeds exactly when the file has that key once. */
  lemma RewriteSucceeds(raw: string, key: string, value: string)
    ensures Rewrite(raw, map[key := value]).Ok? <==> |Values(Lines(raw), key)| == 1
  {
    LinesSucceed(Lines(raw), key, value);
  }

  lemma LinesSucceed(lines: seq<string>, key: string, value: string)
    ensures RewriteLines(lines, map[key := value]).Ok? <==> |Values(lines, key)| == 1
  {
    SingleRewrite(lines, key, value);
    ValuesCount(lines, key);
    CountMeans(Keys(lines), Some(key));
    OnceMeans(lines, key, value);
  }

  lemma SingleRewrite(lines: seq<string>, key: string, value: string)
    ensures RewriteLines(lines, map[key := value]).Ok? <==> !OccursTwice(lines, map[key := value]) && Occurs(lines, key)
  {
    assert map[key := value].Keys == {key};
  }

  lemma OnceMeans(lines: seq<string>, key: string, value: string)
    ensures OccursTwice(lines, map[key := value]) <==> HasTwo(Keys(lines), Some(key))
    ensures Occurs(lines, key) <==> Some(key) in Keys(lines)
  {
    var keys := Keys(lines);
    if HasTwo(keys, Some(key)) {
      var i, j :| 0 <= i < j < |keys| && keys[i] == Some(key) && keys[j] == Some(key);
      assert IsNamed(lines[i], map[key := value]) && KeyOf(lines[i]) == KeyOf(lines[j]);
    }
    if OccursTwice(lines, map[key := value]) {
      var i, j :| 0 <= i < j < |lines| && IsNamed(lines[i], map[key := value]) && KeyOf(lines[i]) == KeyOf(lines[j]);
      assert keys[i] == Some(key) && keys[j] == Some(key);
    }
  }

  /** Every line of the key ends in a line feed, or with the file. */
  ghost predicate IsEnded(lines: seq<string>, key: string) {
    forall i | 0 <= i < |lines| && KeyOf(lines[i]) == Some(key) :: Ending(lines[i]) == "\n" || i == |lines| - 1
  }

  /** That is exactly what it takes for a value without breaks to fit. */
  lemma EndedFits(lines: seq<string>, key: string, value: string)
    requires AreWhole(lines) && IsPlainValue(value)
    ensures AllFit(lines, map[key := value]) <==> IsEnded(lines, key)
  {
    forall i | 0 <= i < |lines| && KeyOf(lines[i]) == Some(key)
      ensures IsNamed(lines[i], map[key := value])
      ensures Fits(lines[i], value, i == |lines| - 1) <==> Ending(lines[i]) == "\n" || i == |lines| - 1
    {
      assert IsWhole(lines[i], i == |lines| - 1);
      PlainFits(lines[i], value, i == |lines| - 1);
    }
  }

  /** The file after a write reads as the lines meant, exactly when the key's lines end in a line feed or with the file. */
  lemma WriteReadsBack(raw: string, key: string, value: string)
    requires IsPlainValue(value)
    ensures Lines(Join(NewLines(Lines(raw), map[key := value]))) == NewLines(Lines(raw), map[key := value])
            <==> IsEnded(Lines(raw), key)
  {
    WholeLines(raw);
    EndedFits(Lines(raw), key, value);
    RewriteReadsBack(raw, map[key := value]);
  }

  /** A value with a line break in it can never be read back from any file, under any key. */
  lemma {:induction false} BrokenValueIsLost(lines: seq<string>, key: string, value: string)
    requires (forall line <- lines :: IsWhole(line, true)) && ('\n' in value || '\r' in value)
    ensures value !in Values(lines, key)
    decreases |lines|
  {
    if lines != [] {
      BrokenValueIsLost(lines[1..], key, value);
      if KeyOf(lines[0]) == Some(key) {
        var body := Body(lines[0]);
        MatchShows(body);
        WholeBody(lines[0]);
        assert forall c <- Match(body).value.value :: c in Show(Match(body).value);
      }
    }
  }

  lemma WholeBody(line: string)
    requires IsWhole(line, true)
    ensures '\n' !in Body(line) && '\r' !in Body(line)
  {
    forall c <- Body(line) ensures c != '\n' && c != '\r' {
      var i :| 0 <= i < |Body(line)| && Body(line)[i] == c;
      assert line[i] == c && c in line;
    }
  }

  /** So a server secret with a line break leaves the file out of step, whatever the file was. */
  lemma BrokenSecretNeverHolds(raw: string, key: string, secret: string)
    requires '\n' in secret || '\r' in secret
    ensures !Holds(raw, key, secret)
  {
    WholeLines(raw);
    BrokenValueIsLost(Lines(raw), key, secret);
    assert secret in [secret];
  }

  // ----- what a write makes the file say -----

  /** Breaks at most at its end, and there not as `\n` or `\r`. */
  predicate IsStorable(secret: string) {
    '\n' !in secret && '\r' !in secret && forall i | 0 <= i < |secret| - 1 :: !IsBreak(secret[i])
  }

  predicate EndsInBreak(secret: string) {
    secret != [] && IsBreak(secret[|secret| - 1])
  }

  /** Every line of the key ends in a line feed or with the file, or has an empty line after it. */
  ghost predicate IsSteady(lines: seq<string>, key: string) {
    lines == []
    || ((KeyOf(lines[0]) == Some(key) ==> IsSteadyFirst(lines)) && IsSteady(lines[1..], key))
  }

  predicate IsSteadyFirst(lines: seq<string>)
    requires lines != []
  {
    Ending(lines[0]) == "\n" || |lines| == 1 || lines[1] == "\n"
  }

  lemma {:induction false} JoinConcat(a: seq<string>, b: seq<string>)
    ensures Join(a + b) == Join(a) + Join(b)
    decreases |a|
  {
    if a == [] {
      assert a + b == b;
    } else {
      JoinConcat(a[1..], b);
      assert (a + b)[1..] == a[1..] + b;
      ConcatAssociates(a[0], Join(a[1..]), Join(b));
    }
  }

  lemma {:induction false} ValuesConcat(a: seq<string>, b: seq<string>, key: string)
    ensures Values(a + b, key) == Values(a, key) + Values(b, key)
    decreases |a|
  {
    if a == [] {
      assert a + b == b && Values(a, key) == [];
    } else {
      var line, rest := a[0], a[1..];
      ValuesConcat(rest, b, key);
      assert a == [line] + rest;
      ConcatAssociates([line], rest, b);
      ValuesJoin(line, rest, b, key);
    }
  }

  lemma ValuesJoin(line: string, rest: seq<string>, b: seq<string>, key: string)
    requires Values(rest + b, key) == Values(rest, key) + Values(b, key)
    ensures Values([line] + (rest + b), key) == Values([line] + rest, key) + Values(b, key)
  {
    FirstValues(line, rest + b, key);
    FirstValues(line, rest, key);
    ConcatAssociates(Said(line, key), Values(rest, key), Values(b, key));
  }

  ghost predicate AreTerminated(lines: seq<string>) {
    forall i | 0 <= i < |lines| :: IsWhole(lines[i], false)
  }

  /** Terminated lines are split off whatever follows. */
  lemma {:induction false} SplitAfter(lines: seq<string>, rest: string)
    requires AreTerminated(lines)
    ensures Split(Join(lines) + rest) == lines + Split(rest)
    decreases |lines|
  {
    if lines != [] {
      SplitAfter(lines[1..], rest);
      SplitFirst(lines[0], Join(lines[1..]) + rest);
      ConcatAssociates(lines[0], Join(lines[1..]), rest);
      ConcatAssociates([lines[0]], lines[1..], Split(rest));
      assert lines == [lines[0]] + lines[1..];
    } else {
      assert Join(lines) + rest == rest;
    }
  }

  /** The one line of a key, with the lines around it. */
  datatype Place = Place(before: seq<string>, line: string, after: seq<string>)

  ghost predicate IsPlace(p: Place, lines: seq<string>, key: string) {
    lines == p.before + ([p.line] + p.after) && AreWhole(p.after) && AreTerminated(p.before) && IsWhole(p.line, p.after == [])
    && KeyOf(p.line) == Some(key) && Values(p.before, key) == [] && Values(p.after, key) == []
  }

  /** The place of a key in the lines after the first, seen from the first. */
  lemma PlaceFurther(line: string, rest: seq<string>, key: string, p: Place)
    requires IsPlace(p, rest, key) && IsWhole(line, false) && KeyOf(line) != Some(key)
    ensures IsPlace(p.(before := [line] + p.before), [line] + rest, key)
  {
    ConcatAssociates([line], p.before, [p.line] + p.after);
    FirstValues(line, p.before, key);
  }

  lemma PlaceFirst(line: string, rest: seq<string>, key: string)
    requires AreWhole(rest) && IsWhole(line, rest == []) && KeyOf(line) == Some(key) && Values(rest, key) == []
    ensures IsPlace(Place([], line, rest), [line] + rest, key)
  {
    assert [] + ([line] + rest) == [line] + rest;
  }

  lemma RestIsWhole(lines: seq<string>)
    requires AreWhole(lines) && lines != []
    ensures AreWhole(lines[1..]) && IsWhole(lines[0], lines[1..] == []) && lines == [lines[0]] + lines[1..]
  {
    assert forall i | 0 <= i < |lines[1..]| :: lines[1..][i] == lines[i + 1] && IsWhole(lines[i + 1], i + 1 == |lines| - 1);
    assert IsWhole(lines[0], 0 == |lines| - 1);
  }

  lemma {:induction false} FindPlace(lines: seq<string>, key: string) returns (p: Place)
    requires AreWhole(lines) && |Values(lines, key)| == 1
    ensures IsPlace(p, lines, key)
    decreases |lines|
  {
    var line, rest := lines[0], lines[1..];
    RestIsWhole(lines);
    FirstValues(line, rest, key);
    if KeyOf(line) == Some(key) {
      p := Place([], line, rest);
      PlaceFirst(line, rest, key);
    } else {
      p := FindPlace(rest, key);
      PlaceFurther(line, rest, key, p);
      p := p.(before := [line] + p.before);
    }
  }

  ghost function EntryOf(p: Place): Entry
    requires KeyOf(p.line).Some?
  {
    Match(Body(p.line)).value
  }

  /** The text from the written line on. */
  ghost function Tail(p: Place, secret: string): string
    requires KeyOf(p.line).Some?
  {
    Show(EntryOf(p).(value := secret)) + Ending(p.line) + Join(p.after)
  }

  lemma {:induction false} UnnamedStay(lines: seq<string>, key: string, secret: string)
    requires Values(lines, key) == []
    ensures NewLines(lines, map[key := secret]) == lines
    decreases |lines|
  {
    if lines != [] {
      FirstValues(lines[0], lines[1..], key);
      NewLinesFirst(lines, map[key := secret]);
      UnnamedStay(lines[1..], key, secret);
    }
  }

  lemma NewLinesConcat(a: seq<string>, b: seq<string>, replacements: Replacements)
    ensures NewLines(a + b, replacements) == NewLines(a, replacements) + NewLines(b, replacements)
  {
  }

  /** The written file: the lines before the key's are untouched. */
  lemma WrittenText(p: Place, lines: seq<string>, key: string, secret: string)
    requires IsPlace(p, lines, key)
    ensures Join(NewLines(lines, map[key := secret])) == Join(p.before) + Tail(p, secret)
  {
    var r := map[key := secret];
    var line := NewLine(p.line, r);
    UnnamedStay(p.before, key, secret);
    UnnamedStay(p.after, key, secret);
    NewLinesConcat(p.before, [p.line] + p.after, r);
    NewLinesFirst([p.line] + p.after, r);
    JoinConcat(p.before, [line] + p.after);
    assert ([line] + p.after)[1..] == p.after && ([p.line] + p.after)[1..] == p.after;
  }

  lemma {:induction false} NoReturns(lines: seq<string>)
    requires forall line <- lines :: '\r' !in line
    ensures '\r' !in Join(lines)
    decreases |lines|
  {
    if lines != [] {
      NoReturns(lines[1..]);
    }
  }

  lemma PlaceHasNoReturns(p: Place, lines: seq<string>, key: string)
    requires IsPlace(p, lines, key)
    ensures '\r' !in Join(p.before) && '\r' !in Join(p.after)
  {
    forall line <- p.before ensures '\r' !in line {
      var i :| 0 <= i < |p.before| && p.before[i] == line;
      assert IsWhole(p.before[i], false);
    }
    forall line <- p.after ensures '\r' !in line {
      var i :| 0 <= i < |p.after| && p.after[i] == line;
      assert IsWhole(p.after[i], i == |p.after| - 1);
    }
    NoReturns(p.before);
    NoReturns(p.after);
  }

  lemma WrittenLines(p: Place, lines: seq<string>, key: string, secret: string)
    requires IsPlace(p, lines, key) && '\r' !in secret
    ensures Lines(Join(NewLines(lines, map[key := secret]))) == p.before + Split(Tail(p, secret))
  {
    WrittenText(p, lines, key, secret);
    PlaceHasNoReturns(p, lines, key);
    TailHasNoReturn(p, key, secret);
    TranslateKeeps(Join(p.before) + Tail(p, secret));
    SplitAfter(p.before, Tail(p, secret));
  }

  lemma TailHasNoReturn(p: Place, key: string, secret: string)
    requires IsWhole(p.line, p.after == []) && KeyOf(p.line) == Some(key) && '\r' !in secret && '\r' !in Join(p.after)
    ensures '\r' !in Tail(p, secret)
  {
    FrontHasNoReturn(p, key);
    WholeEnding(p.line);
    assert '\r' !in Show(EntryOf(p).(value := secret));
  }

  lemma FrontHasNoReturn(p: Place, key: string)
    requires IsWhole(p.line, p.after == []) && KeyOf(p.line) == Some(key)
    ensures var e := EntryOf(p); IsPlainValue(e.prefix + e.key) && '\r' !in e.prefix && '\r' !in e.key
  {
    FrontIsPlain(p.line);
    var e := EntryOf(p);
    assert '\r' in e.prefix || '\r' in e.key ==> '\r' in e.prefix + e.key && IsBreak('\r');
  }

  lemma ValuesAround(before: seq<string>, line: string, rest: seq<string>, key: string)
    ensures Values(before + ([line] + rest), key) == Values(before, key) + (Said(line, key) + Values(rest, key))
  {
    ValuesConcat(before, [line] + rest, key);
    FirstValues(line, rest, key);
  }

  /** What the file says when the written line is read as `line` and then come `rest`. */
  lemma SaysAround(p: Place, lines: seq<string>, key: string, line: string, rest: seq<string>)
    requires IsPlace(p, lines, key) && KeyOf(line) == Some(key) && Values(rest, key) == []
    ensures Values(p.before + ([line] + rest), key) == Said(line, key)
    ensures forall other | other != key && Values(rest, other) == Values(p.after, other) ::
              Values(p.before + ([line] + rest), other) == Values(lines, other)
  {
    ValuesAround(p.before, line, rest, key);
    forall other | other != key && Values(rest, other) == Values(p.after, other)
      ensures Values(p.before + ([line] + rest), other) == Values(lines, other)
    {
      ValuesAround(p.before, line, rest, other);
      ValuesAround(p.before, p.line, p.after, other);
    }
  }

  /** A line made of the entry's front and another value reads as that value. */
  lemma ShownReads(p: Place, value: string, ending: string, last: bool)
    requires IsWhole(p.line, p.after == []) && KeyOf(p.line).Some? && (ending == "" || ending == "\n")
    requires IsWhole(['='] + value + ending, last)
    ensures var line := Show(EntryOf(p).(value := value)) + ending;
            IsWhole(line, last) && Said(line, EntryOf(p).key) == [Chomped(value)] && KeyOf(line) == KeyOf(p.line) && line != "\n"
  {
    var e := EntryOf(p);
    FrontIsPlain(p.line);
    ShowSplits(e.(value := value), ending);
    WholeEnd(e.prefix + e.key, ['='] + value + ending, last);
    ShownParts(e.(value := value), ending);
    MatchAgrees(Body(p.line), Chomped(value));
    assert |e.key| > 0 by { KeyIsNotEmpty(Body(p.line)); }
  }

  lemma KeyIsNotEmpty(body: string)
    requires Match(body).Some?
    ensures |Match(body).value.key| > 0
  {
  }

  /** The value fits: the written line takes the place of the old one. */
  lemma SplitFitting(p: Place, lines: seq<string>, key: string, secret: string)
    requires IsPlace(p, lines, key) && Fits(p.line, secret, p.after == []) && '\n' !in secret
    ensures var line := Show(EntryOf(p).(value := secret)) + Ending(p.line);
            Split(Tail(p, secret)) == [line] + p.after && Said(line, key) == [secret] && KeyOf(line) == Some(key) && line != "\n"
  {
    var line := Show(EntryOf(p).(value := secret)) + Ending(p.line);
    WholeEnding(p.line);
    ShownReads(p, secret, Ending(p.line), p.after == []);
    JoinIsEmpty(p.after);
    SplitFirst(line, Join(p.after));
    SplitJoin(p.after);
    NoChomp(secret);
  }

  lemma NoChomp(secret: string)
    requires '\n' !in secret
    ensures Chomped(secret) == secret
  {
    assert secret != [] ==> secret[|secret| - 1] in secret;
  }

  lemma JoinIsEmpty(lines: seq<string>)
    requires AreWhole(lines)
    ensures Join(lines) == [] <==> lines == []
  {
    if lines != [] {
      assert IsWhole(lines[0], 0 == |lines| - 1);
    }
  }

  /** The value brings a break of its own: the old line feed is left as an empty line. */
  lemma SplitBroken(p: Place, lines: seq<string>, key: string, secret: string)
    requires IsPlace(p, lines, key) && IsStorable(secret) && EndsInBreak(secret) && Ending(p.line) == "\n"
    ensures var line := Show(EntryOf(p).(value := secret));
            Split(Tail(p, secret)) == [line] + (["\n"] + p.after) && Said(line, key) == [secret] && KeyOf(line) == Some(key) && line != "\n"
  {
    var line := Show(EntryOf(p).(value := secret));
    StorableIsWhole(secret);
    ShownReads(p, secret, "", false);
    NoChomp(secret);
    assert line + "" == line;
    ConcatAssociates(line, "\n", Join(p.after));
    SplitFirst(line, "\n" + Join(p.after));
    SplitFirst("\n", Join(p.after));
    SplitJoin(p.after);
  }

  lemma StorableIsWhole(secret: string)
    requires IsStorable(secret)
    ensures IsWhole(['='] + secret + "", !EndsInBreak(secret)) && (!EndsInBreak(secret) ==> IsPlainValue(secret))
  {
    var text := ['='] + secret + "";
    assert forall i | 0 < i < |text| :: text[i] == secret[i - 1];
    assert '\r' !in text;
  }

  lemma MergedTail(p: Place, secret: string)
    requires KeyOf(p.line).Some? && Ending(p.line) == "" && p.after != []
    ensures Tail(p, secret) == Show(EntryOf(p).(value := secret)) + p.after[0] + Join(p.after[1..])
  {
    var text := Show(EntryOf(p).(value := secret));
    assert text + "" == text;
    ConcatAssociates(text, p.after[0], Join(p.after[1..]));
  }

  lemma MergedReads(p: Place, secret: string, next: string, last: bool)
    requires IsWhole(p.line, p.after == []) && KeyOf(p.line).Some? && IsPlainValue(secret) && IsWhole(next, last)
    ensures var line := Show(EntryOf(p).(value := secret)) + next;
            IsWhole(line, last) && Said(line, EntryOf(p).key) == [secret + Body(next)] && KeyOf(line) == KeyOf(p.line) && line != "\n"
  {
    MergedIsWhole(secret, next, last);
    WholeEnding(next);
    ShownReads(p, secret + Body(next), Ending(next), last);
    ShowExtends(EntryOf(p), secret, Body(next), Ending(next));
  }

  /** The old break is lost and nothing takes its place: the line runs into the next one. */
  lemma SplitMerged(p: Place, lines: seq<string>, key: string, secret: string)
    requires IsPlace(p, lines, key) && IsPlainValue(secret) && Ending(p.line) == "" && p.after != []
    ensures var line := Show(EntryOf(p).(value := secret)) + p.after[0];
            Split(Tail(p, secret)) == [line] + p.after[1..] && Said(line, key) == [secret + Body(p.after[0])] && KeyOf(line) == Some(key) && line != "\n"
  {
    var rest := p.after[1..];
    RestIsWhole(p.after);
    MergedReads(p, secret, p.after[0], rest == []);
    MergedTail(p, secret);
    JoinIsEmpty(rest);
    SplitFirst(Show(EntryOf(p).(value := secret)) + p.after[0], Join(rest));
    SplitJoin(rest);
  }

  lemma ShowExtends(e: Entry, value: string, body: string, ending: string)
    ensures Show(e.(value := value + body)) + ending == Show(e.(value := value)) + (body + ending)
  {
  }

  lemma MergedIsWhole(secret: string, next: string, last: bool)
    requires IsPlainValue(secret) && IsWhole(next, last)
    ensures IsWhole(['='] + (secret + Body(next)) + Ending(next), last)
    ensures Chomped(secret + Body(next)) == secret + Body(next) && next == Body(next) + Ending(next)
  {
    WholeEnding(next);
    assert next == Body(next) + Ending(next);
    assert ['='] + (secret + Body(next)) + Ending(next) == (['='] + secret) + next;
    WholeEnd(['='] + secret, next, last);
    BodyHasNoFeed(next);
    assert '\n' !in secret by { assert IsBreak('\n'); }
    NoChomp(secret + Body(next));
  }

  lemma BodyHasNoFeed(line: string)
    requires IsWhole(line, true)
    ensures '\n' !in Body(line) && (Body(line) == "" <==> line == "\n")
  {
    WholeBody(line);
  }

  lemma TornTail(e: Entry, first: string, more: string, ending: string, after: string)
    ensures Show(e.(value := first + more)) + ending + after == Show(e.(value := first)) + (more + ending + after)
  {
  }

  /** The value breaks before its end: only its first part is read. */
  lemma SplitTorn(p: Place, lines: seq<string>, key: string, first: string, more: string)
    requires IsPlace(p, lines, key) && IsStorable(first) && EndsInBreak(first)
    ensures Split(Tail(p, first + more)) != [] && Said(Split(Tail(p, first + more))[0], key) == [first]
  {
    var e := EntryOf(p);
    var line := Show(e.(value := first));
    StorableIsWhole(first);
    ShownReads(p, first, "", false);
    NoChomp(first);
    assert line + "" == line;
    TornTail(e, first, more, Ending(p.line), Join(p.after));
    SplitFirst(line, more + Ending(p.line) + Join(p.after));
  }

  lemma FirstSteady(line: string, rest: seq<string>, key: string)
    ensures IsSteady([line] + rest, key)
            <==> (KeyOf(line) == Some(key) ==> IsSteadyFirst([line] + rest)) && IsSteady(rest, key)
  {
    assert ([line] + rest)[1..] == rest;
  }

  lemma {:induction false} NoneIsSteady(lines: seq<string>, key: string)
    requires Values(lines, key) == []
    ensures IsSteady(lines, key)
    decreases |lines|
  {
    if lines != [] {
      NoneIsSteady(lines[1..], key);
    }
  }

  lemma NoneFirst(lines: seq<string>, key: string)
    requires Values(lines, key) == [] && lines != []
    ensures KeyOf(lines[0]) != Some(key) && Values(lines[1..], key) == []
  {
  }

  lemma {:induction false} SteadyElsewhere(before: seq<string>, tail: seq<string>, key: string)
    requires Values(before, key) == [] && tail != []
    ensures IsSteady(before + tail, key) <==> IsSteady(tail, key)
    decreases |before|
  {
    if before == [] {
      assert before + tail == tail;
    } else {
      NoneFirst(before, key);
      SteadyElsewhere(before[1..], tail, key);
      FirstOfMany(before, tail, key);
    }
  }

  /** Whether lines are steady depends on what follows only through an empty line there. */
  lemma {:induction false} SteadyFront(before: seq<string>, tail: seq<string>, tail': seq<string>, key: string)
    requires tail != [] && tail' != [] && (tail[0] == "\n" <==> tail'[0] == "\n")
    requires IsSteady(tail, key) <==> IsSteady(tail', key)
    ensures IsSteady(before + tail, key) <==> IsSteady(before + tail', key)
    decreases |before|
  {
    if before == [] {
      assert before + tail == tail && before + tail' == tail';
    } else {
      SteadyFront(before[1..], tail, tail', key);
      FirstOfMany(before, tail, key);
      FirstOfMany(before, tail', key);
    }
  }

  lemma FirstOfMany(before: seq<string>, tail: seq<string>, key: string)
    requires before != [] && tail != []
    ensures IsSteady(before + tail, key)
            <==> (KeyOf(before[0]) == Some(key) ==>
                    Ending(before[0]) == "\n" || (if |before| == 1 then tail[0] else before[1]) == "\n")
                 && IsSteady(before[1..] + tail, key)
  {
    assert before + tail == [before[0]] + (before[1..] + tail);
    FirstSteady(before[0], before[1..] + tail, key);
  }

  lemma FeedHasNoKey()
    ensures KeyOf("\n").None?
  {
    assert Body("\n") == "" && Match("").None?;
  }

  lemma PlaceSteady(p: Place, lines: seq<string>, key: string)
    requires IsPlace(p, lines, key)
    ensures IsSteady(lines, key) <==> Ending(p.line) == "\n" || p.after == [] || p.after[0] == "\n"
  {
    SteadyElsewhere(p.before, [p.line] + p.after, key);
    FirstSteady(p.line, p.after, key);
    NoneIsSteady(p.after, key);
  }

  /** The lines give the key this one value, and are as before in every other key. */
  ghost predicate IsWellWritten(lines: seq<string>, more: seq<string>, key: string, secret: string) {
    Values(more, key) == [secret]
    && (forall other | other != key :: Values(more, other) == Values(lines, other))
    && forall other | other != key :: IsSteady(more, other) <==> IsSteady(lines, other)
  }

  /** The same lines, but for an empty one at the start of one of them. */
  predicate DifferByFeed(a: seq<string>, b: seq<string>) {
    a == b || a == ["\n"] + b || b == ["\n"] + a
  }

  lemma FeedSaysNothing(a: seq<string>, b: seq<string>, key: string)
    requires DifferByFeed(a, b)
    ensures Values(a, key) == Values(b, key) && (IsSteady(a, key) <==> IsSteady(b, key))
  {
    FeedHasNoKey();
    FirstValues("\n", a, key);
    FirstValues("\n", b, key);
    FirstSteady("\n", a, key);
    FirstSteady("\n", b, key);
  }

  lemma Rewritten(p: Place, lines: seq<string>, key: string, secret: string, line: string, rest: seq<string>)
    requires IsPlace(p, lines, key) && Said(line, key) == [secret] && KeyOf(line) == Some(key) && line != "\n"
    requires DifferByFeed(rest, p.after)
    ensures IsWellWritten(lines, p.before + ([line] + rest), key, secret)
  {
    FeedSaysNothing(rest, p.after, key);
    SaysAround(p, lines, key, line, rest);
    FeedHasNoKey();
    forall other | other != key
      ensures Values(rest, other) == Values(p.after, other)
      ensures IsSteady(p.before + ([line] + rest), other) <==> IsSteady(lines, other)
    {
      FeedSaysNothing(rest, p.after, other);
      FirstSteady(line, rest, other);
      FirstSteady(p.line, p.after, other);
      SteadyFront(p.before, [line] + rest, [p.line] + p.after, other);
    }
  }

  /** The secret can be read back from where it is written. */
  ghost predicate Survives(lines: seq<string>, key: string, secret: string) {
    IsStorable(secret) && (EndsInBreak(secret) || IsSteady(lines, key))
  }

  lemma FittingWrite(p: Place, lines: seq<string>, key: string, secret: string)
    requires IsPlace(p, lines, key) && Fits(p.line, secret, p.after == []) && '\n' !in secret
    ensures IsWellWritten(lines, p.before + Split(Tail(p, secret)), key, secret)
  {
    SplitFitting(p, lines, key, secret);
    Rewritten(p, lines, key, secret, Show(EntryOf(p).(value := secret)) + Ending(p.line), p.after);
  }

  lemma BrokenWrite(p: Place, lines: seq<string>, key: string, secret: string)
    requires IsPlace(p, lines, key) && IsStorable(secret) && EndsInBreak(secret) && Ending(p.line) == "\n"
    ensures IsWellWritten(lines, p.before + Split(Tail(p, secret)), key, secret)
  {
    SplitBroken(p, lines, key, secret);
    Rewritten(p, lines, key, secret, Show(EntryOf(p).(value := secret)), ["\n"] + p.after);
  }

  lemma FeedFirst(lines: seq<string>)
    requires lines != [] && lines[0] == "\n"
    ensures Body(lines[0]) == "" && DifferByFeed(lines[1..], lines)
  {
    assert lines == ["\n"] + lines[1..];
  }

  lemma MergedWrite(p: Place, lines: seq<string>, key: string, secret: string)
    requires IsPlace(p, lines, key) && IsPlainValue(secret) && Ending(p.line) == "" && p.after != [] && p.after[0] == "\n"
    ensures IsWellWritten(lines, p.before + Split(Tail(p, secret)), key, secret)
  {
    SplitMerged(p, lines, key, secret);
    FeedFirst(p.after);
    assert secret + "" == secret;
    Rewritten(p, lines, key, secret, Show(EntryOf(p).(value := secret)) + p.after[0], p.after[1..]);
  }

  lemma SurvivingWrite(p: Place, lines: seq<string>, key: string, secret: string)
    requires IsPlace(p, lines, key) && Survives(lines, key, secret)
    ensures IsWellWritten(lines, p.before + Split(Tail(p, secret)), key, secret)
  {
    WholeEnding(p.line);
    PlaceSteady(p, lines, key);
    StorableIsWhole(secret);
    if EndsInBreak(secret) {
      if Ending(p.line) == "\n" {
        BrokenWrite(p, lines, key, secret);
      } else {
        FittingWrite(p, lines, key, secret);
      }
    } else if Ending(p.line) == "\n" || p.after == [] {
      PlainFits(p.line, secret, p.after == []);
      FittingWrite(p, lines, key, secret);
    } else {
      MergedWrite(p, lines, key, secret);
    }
  }

  /** The entry on the line that is run into is lost. */
  lemma NeighbourIsLost(p: Place, lines: seq<string>, key: string, secret: string, other: string)
    requires IsPlace(p, lines, key) && IsPlainValue(secret) && Ending(p.line) == "" && p.after != []
    requires KeyOf(p.after[0]) == Some(other) && other != key && |Values(lines, other)| == 1
    ensures Values(p.before + Split(Tail(p, secret)), other) == []
  {
    SplitMerged(p, lines, key, secret);
    RestIsWhole(p.after);
    ValuesAround(p.before, p.line, p.after, other);
    FirstValues(p.after[0], p.after[1..], other);
    ValuesAround(p.before, Show(EntryOf(p).(value := secret)) + p.after[0], p.after[1..], other);
  }

  lemma RunIntoNext(p: Place, lines: seq<string>, key: string, secret: string)
    requires IsPlace(p, lines, key) && IsPlainValue(secret) && Ending(p.line) == "" && p.after != [] && p.after[0] != "\n"
    ensures Values(p.before + Split(Tail(p, secret)), key) != [secret]
  {
    SplitMerged(p, lines, key, secret);
    NoneFirst(p.after, key);
    SaysAround(p, lines, key, Show(EntryOf(p).(value := secret)) + p.after[0], p.after[1..]);
    RestIsWhole(p.after);
    BodyHasNoFeed(p.after[0]);
    assert |secret + Body(p.after[0])| > |secret|;
  }

  lemma TornSecret(p: Place, lines: seq<string>, key: string, first: string, more: string)
    requires IsPlace(p, lines, key) && IsStorable(first) && EndsInBreak(first) && more != []
    ensures Values(p.before + Split(Tail(p, first + more)), key) != [first + more]
  {
    SplitTorn(p, lines, key, first, more);
    var tail := Split(Tail(p, first + more));
    assert tail == [tail[0]] + tail[1..];
    ValuesAround(p.before, tail[0], tail[1..], key);
    assert Values(p.before + tail, key)[0] == first;
    assert |first| < |first + more|;
  }

  lemma LostStorable(p: Place, lines: seq<string>, key: string, secret: string)
    requires IsPlace(p, lines, key) && IsStorable(secret) && !EndsInBreak(secret) && !IsSteady(lines, key)
    ensures Values(p.before + Split(Tail(p, secret)), key) != [secret]
  {
    StorableIsWhole(secret);
    PlaceSteady(p, lines, key);
    WholeEnding(p.line);
    RunIntoNext(p, lines, key, secret);
  }

  /** Neither a line that runs into the next nor a torn secret gives the key its value. */
  lemma LostWrite(p: Place, lines: seq<string>, key: string, secret: string)
    requires IsPlace(p, lines, key) && !Survives(lines, key, secret) && '\n' !in secret && '\r' !in secret
    ensures Values(p.before + Split(Tail(p, secret)), key) != [secret]
  {
    if IsStorable(secret) {
      LostStorable(p, lines, key, secret);
    } else {
      var first, more := FirstBreak(secret);
      TornSecret(p, lines, key, first, more);
    }
  }

  lemma FirstBreak(secret: string) returns (first: string, more: string)
    requires !IsStorable(secret) && '\n' !in secret && '\r' !in secret
    ensures secret == first + more && more != [] && IsStorable(first) && EndsInBreak(first)
  {
    var m :| 0 <= m < |secret| - 1 && IsBreak(secret[m]);
    var k := 0;
    while !IsBreak(secret[k])
      invariant k <= m && forall i | 0 <= i < k :: !IsBreak(secret[i])
      decreases m - k
    {
      k := k + 1;
    }
    first, more := secret[..k + 1], secret[k + 1..];
  }

  /**
   What one write does, for every file and every secret: afterwards the file holds the secret
   exactly when the secret breaks nowhere but perhaps at its end, and not as a line feed or
   carriage return, and either it does break there or the key's line ends in a line feed, is the
   last, or has an empty line after it. Then the file says the same as before of every other key.
   */
  lemma WriteIsExact(raw: string, key: string, secret: string)
    requires Rewrite(raw, map[key := secret]).Ok?
    ensures var out := Rewrite(raw, map[key := secret]).value;
            (Holds(out, key, secret) <==> Survives(Lines(raw), key, secret))
            && (Survives(Lines(raw), key, secret) ==> IsWellWritten(Lines(raw), Lines(out), key, secret))
  {
    var lines := Lines(raw);
    if '\n' in secret || '\r' in secret {
      BrokenSecretNeverHolds(Rewrite(raw, map[key := secret]).value, key, secret);
    } else {
      WholeLines(raw);
      RewriteSucceeds(raw, key, secret);
      RewrittenLines(lines, map[key := secret]);
      var p := FindPlace(lines, key);
      WrittenLines(p, lines, key, secret);
      if Survives(lines, key, secret) {
        SurvivingWrite(p, lines, key, secret);
      } else {
        LostWrite(p, lines, key, secret);
      }
    }
  }
}
