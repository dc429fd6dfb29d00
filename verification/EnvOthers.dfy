/**
 What writing a secret to an environment file does to the other entries, for every secret: also
 for one that breaks into lines of its own.
 */
module EnvOthers {

  import opened Common
  import opened EnvFile
  import opened EnvWrite

  lemma {:induction false} TranslateAfter(a: string, b: string)
    requires '\r' !in a
    ensures Translate(a + b) == a + Translate(b)
    decreases |a|
  {
    if a == [] {
      assert a + b == b;
    } else {
      TranslateAfter(a[1..], b);
      assert (a + b)[1..] == a[1..] + b && a == [a[0]] + a[1..];
      assert a[0] in a && (a + b)[0] == a[0];
      ConcatAssociates([a[0]], a[1..], Translate(b));
    }
  }

  lemma {:induction false} TranslateBefore(a: string, b: string)
    requires '\r' !in b && (a == [] || a[|a| - 1] != '\r' || b == [] || b[0] != '\n')
    ensures Translate(a + b) == Translate(a) + b
    decreases |a|
  {
    if a == [] {
      assert a + b == b;
      TranslateKeeps(b);
    } else if a[0] == '\r' && |a| > 1 && a[1] == '\n' {
      TranslateBefore(a[2..], b);
      assert (a + b)[2..] == a[2..] + b && (a + b)[1] == a[1];
      ConcatAssociates(['\n'], Translate(a[2..]), b);
    } else {
      TranslateBefore(a[1..], b);
      assert (a + b)[1..] == a[1..] + b && (|a| > 1 ==> (a + b)[1] == a[1]);
      ConcatAssociates([if a[0] == '\r' then '\n' else a[0]], Translate(a[1..]), b);
    }
  }

  /** Text without breaks joins the first line of what follows. */
  function Glued(front: string, lines: seq<string>): seq<string> {
    if lines == [] then [front] else [front + lines[0]] + lines[1..]
  }

  lemma {:induction false} SplitGlued(front: string, text: string)
    requires IsPlainValue(front) && front != []
    ensures Split(front + text) == Glued(front, Split(text))
    decreases |front|
  {
    var rest := front[1..];
    var whole := front + text;
    assert whole[1..] == rest + text && front == [front[0]] + rest && front[0] in front;
    if rest == [] {
      assert rest + text == text && front == [front[0]];
      assert text == [] ==> whole == front;
    } else {
      forall c <- rest ensures !IsBreak(c) {
        assert c in front;
      }
      SplitGlued(rest, text);
      GluedTwice(front[0], rest, Split(text));
    }
  }

  lemma GluedTwice(c: char, rest: string, lines: seq<string>)
    ensures Glued([c] + rest, lines) == Glued([c], Glued(rest, lines))
  {
    if lines != [] {
      ConcatAssociates([c], rest, lines[0]);
    }
  }

  /** The part of the written line that stays. */
  ghost function Front(p: Place): string
    requires KeyOf(p.line).Some?
  {
    EntryOf(p).prefix + EntryOf(p).key + ['=']
  }

  /** What is written behind it. */
  ghost function Behind(p: Place, secret: string): string {
    secret + Ending(p.line) + Join(p.after)
  }

  lemma TailParts(p: Place, secret: string)
    requires KeyOf(p.line).Some?
    ensures Tail(p, secret) == Front(p) + Behind(p, secret)
  {
    var front, ending, after := Front(p), Ending(p.line), Join(p.after);
    assert Show(EntryOf(p).(value := secret)) == front + secret;
    ConcatAssociates(front, secret, ending);
    ConcatAssociates(front, secret + ending, after);
  }

  lemma PlainFront(p: Place, key: string)
    requires IsWhole(p.line, p.after == []) && KeyOf(p.line) == Some(key)
    ensures IsPlainValue(Front(p)) && Front(p) != [] && '\r' !in Front(p)
  {
    FrontIsPlain(p.line);
    assert IsBreak('\r');
  }

  /** The written file, for any secret whatever: what is behind the front is read on its own. */
  lemma WrittenPieces(p: Place, lines: seq<string>, key: string, secret: string)
    requires IsPlace(p, lines, key)
    ensures Lines(Join(NewLines(lines, map[key := secret]))) == p.before + Glued(Front(p), Lines(Behind(p, secret)))
  {
    var before, front, behind := Join(p.before), Front(p), Behind(p, secret);
    WrittenText(p, lines, key, secret);
    PlaceHasNoReturns(p, lines, key);
    PlainFront(p, key);
    TailParts(p, secret);
    TranslateAfter(before, front + behind);
    TranslateAfter(front, behind);
    SplitAfter(p.before, front + Translate(behind));
    SplitGlued(front, Translate(behind));
  }

  function Rest(lines: seq<string>): seq<string> {
    if lines == [] then [] else lines[1..]
  }

  /** The first piece belongs to the key's own line, whatever it is. */
  lemma GluedReads(p: Place, lines: seq<string>, key: string, pieces: seq<string>)
    requires IsPlace(p, lines, key) && AreWhole(pieces)
    ensures Glued(Front(p), pieces) == [Glued(Front(p), pieces)[0]] + Rest(pieces)
    ensures KeyOf(Glued(Front(p), pieces)[0]) == Some(key)
  {
    if pieces == [] {
      PieceReads(p, key, "");
      assert Front(p) + "" == Front(p);
    } else {
      assert IsWhole(pieces[0], 0 == |pieces| - 1);
      PieceReads(p, key, pieces[0]);
    }
  }

  lemma PieceReads(p: Place, key: string, piece: string)
    requires IsWhole(p.line, p.after == []) && KeyOf(p.line) == Some(key) && (piece == "" || IsWhole(piece, true))
    ensures KeyOf(Front(p) + piece) == Some(key)
  {
    var value := Chomped(piece);
    var ending := if EndsInLineFeed(piece) then "\n" else "";
    assert piece == value + ending;
    ConcatAssociates(['='], value, ending);
    assert IsWhole(['='] + piece, true) by {
      if piece != "" {
        WholeEnd(['='], piece, true);
      }
    }
    ShownReads(p, value, ending, true);
    assert Show(EntryOf(p).(value := value)) == Front(p) + value;
    ConcatAssociates(Front(p), value, ending);
  }

  /** So of every other key the file says what the lines before the key's and the further pieces say. */
  lemma WrittenValues(p: Place, lines: seq<string>, key: string, secret: string, other: string)
    requires IsPlace(p, lines, key) && other != key
    ensures Values(Lines(Join(NewLines(lines, map[key := secret]))), other)
         == Values(p.before, other) + Values(Rest(Lines(Behind(p, secret))), other)
    ensures Values(lines, other) == Values(p.before, other) + Values(p.after, other)
  {
    WrittenPieces(p, lines, key, secret);
    WholeLines(Behind(p, secret));
    GluedValues(p, lines, key, Lines(Behind(p, secret)), other);
    OthersAround(p.before, p.line, p.after, key, other);
  }

  lemma GluedValues(p: Place, lines: seq<string>, key: string, pieces: seq<string>, other: string)
    requires IsPlace(p, lines, key) && other != key && AreWhole(pieces)
    ensures Values(p.before + Glued(Front(p), pieces), other) == Values(p.before, other) + Values(Rest(pieces), other)
  {
    GluedReads(p, lines, key, pieces);
    OthersAround(p.before, Glued(Front(p), pieces)[0], Rest(pieces), key, other);
  }

  lemma OthersAround(before: seq<string>, line: string, rest: seq<string>, key: string, other: string)
    requires KeyOf(line) == Some(key) && other != key
    ensures Values(before + ([line] + rest), other) == Values(before, other) + Values(rest, other)
  {
    ValuesAround(before, line, rest, other);
  }

  /** Text that ends in a break is split off what follows. */
  lemma SplitEnded(text: string, rest: string)
    requires '\r' !in text && (text == [] || IsBreak(text[|text| - 1]))
    ensures Split(text + rest) == Split(text) + Split(rest)
  {
    JoinSplit(text);
    SplitIsWhole(text);
    if text == [] {
      assert text + rest == rest;
    } else {
      EndedIsTerminated(Split(text));
      SplitAfter(Split(text), rest);
    }
  }

  lemma EndedIsTerminated(lines: seq<string>)
    requires AreWhole(lines) && lines != [] && Join(lines) != [] && IsBreak(Join(lines)[|Join(lines)| - 1])
    ensures AreTerminated(lines)
  {
    LastOfJoin(lines);
    forall i | 0 <= i < |lines| ensures IsWhole(lines[i], false) {
      assert IsWhole(lines[i], i == |lines| - 1);
    }
  }

  lemma {:induction false} LastOfJoin(lines: seq<string>)
    requires AreWhole(lines) && lines != []
    ensures Join(lines) != [] && lines[|lines| - 1] != []
    ensures Join(lines)[|Join(lines)| - 1] == lines[|lines| - 1][|lines[|lines| - 1]| - 1]
    decreases |lines|
  {
    RestIsWhole(lines);
    if |lines| > 1 {
      LastOfJoin(lines[1..]);
    } else {
      assert lines[1..] == [];
    }
  }

  /** Text before a line feed ends with it, even where a carriage return comes before. */
  lemma TranslateFeed(text: string)
    ensures var t := Translate(text);
            Translate(text + "\n") == if text != [] && text[|text| - 1] == '\r' then t else t + "\n"
    ensures text != [] && text[|text| - 1] == '\r' ==> Translate(text) != [] && Translate(text)[|Translate(text)| - 1] == '\n'
  {
    if text != [] && text[|text| - 1] == '\r' {
      var front := text[..|text| - 1];
      assert text == front + "\r" && text + "\n" == front + "\r\n";
      TranslateReturn(front, "\r");
      TranslateReturn(front, "\r\n");
    } else {
      TranslateBefore(text, "\n");
    }
  }

  lemma {:induction false} TranslateReturn(front: string, end: string)
    requires end == "\r" || end == "\r\n"
    ensures Translate(front + end) == Translate(front) + "\n"
    decreases |front|
  {
    if front == [] {
      assert front + end == end && "\r"[1..] == "" && "\r\n"[2..] == "" && Translate("") == "";
      assert Translate(end) == ['\n'] + "";
    } else if front[0] == '\r' && |front| > 1 && front[1] == '\n' {
      TranslateReturn(front[2..], end);
      assert (front + end)[2..] == front[2..] + end && (front + end)[1] == front[1];
      ConcatAssociates(['\n'], Translate(front[2..]), "\n");
    } else {
      TranslateReturn(front[1..], end);
      assert (front + end)[1..] == front[1..] + end;
      assert (front + end)[1] == if |front| > 1 then front[1] else '\r';
      ConcatAssociates([if front[0] == '\r' then '\n' else front[0]], Translate(front[1..]), "\n");
    }
  }

  /** A line feed at the end of text changes nothing that its lines say after the first. */
  lemma FeedAddsNothing(text: string, key: string)
    ensures Values(Rest(Lines(text + "\n")), key) == Values(Rest(Lines(text)), key)
  {
    TranslateFeed(text);
    var t := Translate(text);
    if t == [] || IsBreak(t[|t| - 1]) {
      FeedAfterBreak(t, key);
    } else {
      FeedAfterOpen(t, key);
    }
  }

  lemma FeedAfterBreak(t: string, key: string)
    requires '\r' !in t && (t == [] || IsBreak(t[|t| - 1]))
    ensures Values(Rest(Split(t + "\n")), key) == Values(Rest(Split(t)), key)
  {
    SplitEnded(t, "\n");
    FeedIsLine();
    FeedLast(Split(t), key);
  }

  lemma FeedIsLine()
    ensures Split("\n") == ["\n"]
  {
    assert "\n"[1..] == "" && Split("") == [];
  }

  lemma FeedAfterOpen(t: string, key: string)
    requires t != [] && !IsBreak(t[|t| - 1]) && '\r' !in t
    ensures Values(Rest(Split(t + "\n")), key) == Values(Rest(Split(t)), key)
  {
    SplitOpen(t);
    FeedJoins(Split(t), key);
  }

  lemma FeedLast(lines: seq<string>, key: string)
    ensures Values(Rest(lines + ["\n"]), key) == Values(Rest(lines), key)
  {
    if lines != [] {
      assert (lines + ["\n"])[1..] == lines[1..] + ["\n"];
      ValuesConcat(lines[1..], ["\n"], key);
      FeedHasNoKey();
      FirstValues("\n", [], key);
      assert ["\n"] + [] == ["\n"];
    }
  }

  /** The lines with a line feed at the end of the last one. */
  function Fed(lines: seq<string>): seq<string>
    requires lines != []
  {
    lines[..|lines| - 1] + [lines[|lines| - 1] + "\n"]
  }

  lemma {:induction false} JoinFed(lines: seq<string>)
    requires lines != []
    ensures Join(Fed(lines)) == Join(lines) + "\n"
  {
    var past, last := lines[..|lines| - 1], lines[|lines| - 1];
    assert lines == past + [last];
    JoinConcat(past, [last]);
    JoinConcat(past, [last + "\n"]);
    JoinOne(last);
    JoinOne(last + "\n");
    ConcatAssociates(Join(past), last, "\n");
  }

  lemma JoinOne(line: string)
    ensures Join([line]) == line
  {
    assert [line][1..] == [] && line + [] == line;
  }

  lemma SplitOpen(t: string)
    requires t != [] && !IsBreak(t[|t| - 1]) && '\r' !in t
    ensures Split(t) != [] && Split(t + "\n") == Fed(Split(t)) && AreWhole(Split(t))
    ensures var last := Split(t)[|Split(t)| - 1]; last != [] && IsPlainValue(last)
  {
    JoinSplit(t);
    SplitIsWhole(t);
    SplitOpenLines(Split(t));
  }

  lemma SplitOpenLines(lines: seq<string>)
    requires AreWhole(lines) && lines != [] && Join(lines) != [] && !IsBreak(Join(lines)[|Join(lines)| - 1])
    ensures Split(Join(lines) + "\n") == Fed(lines)
    ensures var last := lines[|lines| - 1]; last != [] && IsPlainValue(last)
  {
    LastOfJoin(lines);
    assert IsWhole(lines[|lines| - 1], true);
    OpenLast(lines[|lines| - 1]);
    FedIsWhole(lines);
    JoinFed(lines);
    SplitJoin(Fed(lines));
  }

  lemma OpenLast(line: string)
    requires IsWhole(line, true) && !IsBreak(line[|line| - 1])
    ensures IsPlainValue(line) && IsWhole(line + "\n", true)
  {
    forall c <- line ensures !IsBreak(c) {
      var i :| 0 <= i < |line| && line[i] == c;
    }
    PlainLine(line);
  }

  lemma PlainLine(line: string)
    requires IsPlainValue(line) && line != []
    ensures IsWhole(line + "\n", true)
  {
    WholeEnd(line, "\n", true);
  }

  lemma FedIsWhole(lines: seq<string>)
    requires lines != [] && AreWhole(lines) && IsWhole(lines[|lines| - 1] + "\n", true)
    ensures AreWhole(Fed(lines))
  {
    forall i | 0 <= i < |lines| ensures IsWhole(Fed(lines)[i], i == |Fed(lines)| - 1) {
      assert IsWhole(lines[i], i == |lines| - 1);
    }
  }

  lemma FeedJoins(lines: seq<string>, key: string)
    requires lines != [] && lines[|lines| - 1] != [] && IsPlainValue(lines[|lines| - 1])
    ensures Values(Rest(Fed(lines)), key) == Values(Rest(lines), key)
  {
    var n := |lines| - 1;
    var last := lines[n];
    if n > 0 {
      assert Rest(Fed(lines)) == lines[1..n] + [last + "\n"] && Rest(lines) == lines[1..n] + [last];
      ValuesConcat(lines[1..n], [last + "\n"], key);
      ValuesConcat(lines[1..n], [last], key);
      FedSays(last, key);
      FirstValues(last, [], key);
      FirstValues(last + "\n", [], key);
      assert [last] + [] == [last] && [last + "\n"] + [] == [last + "\n"];
    } else {
      assert Rest(Fed(lines)) == [] && Rest(lines) == [];
    }
  }

  lemma FedSays(line: string, key: string)
    requires line != [] && IsPlainValue(line)
    ensures Said(line + "\n", key) == Said(line, key)
  {
    assert line[|line| - 1] in line && !IsBreak(line[|line| - 1]) && IsBreak('\n') && IsBreak('\r');
    assert Body(line + "\n") == line && Body(line) == line;
  }

  /** The secret, read as text of its own, names no other key after its first line. */
  ghost predicate IsSilent(secret: string, key: string) {
    forall other | other != key :: Values(Rest(Lines(secret)), other) == []
  }

  lemma EndedPlace(p: Place, lines: seq<string>, key: string)
    requires IsPlace(p, lines, key) && IsEnded(lines, key)
    ensures Ending(p.line) == "\n" || p.after == []
  {
    assert lines[|p.before|] == p.line;
  }

  /** Behind a line that ends in a line feed or with the file, the secret's lines and those after it stay apart. */
  lemma BehindEnded(p: Place, lines: seq<string>, key: string, secret: string, other: string)
    requires IsPlace(p, lines, key) && (Ending(p.line) == "\n" || p.after == [])
    ensures Values(Rest(Lines(Behind(p, secret))), other) == Values(Rest(Lines(secret)), other) + Values(p.after, other)
  {
    WholeEnding(p.line);
    if Ending(p.line) == "\n" {
      PlaceHasNoReturns(p, lines, key);
      SplitJoin(p.after);
      FeedAddsNothing(secret, other);
      SplitFeed(secret, Join(p.after));
      RestConcat(Lines(secret + "\n"), p.after, other);
    } else {
      assert Behind(p, secret) == secret;
    }
  }

  lemma SplitFeed(secret: string, after: string)
    requires '\r' !in after
    ensures Lines(secret + "\n" + after) == Lines(secret + "\n") + Split(after) && Lines(secret + "\n") != []
  {
    TranslateBefore(secret + "\n", after);
    TranslateFeed(secret);
    SplitEnded(Translate(secret + "\n"), after);
  }

  lemma RestConcat(a: seq<string>, b: seq<string>, key: string)
    requires a != []
    ensures Values(Rest(a + b), key) == Values(Rest(a), key) + Values(b, key)
  {
    assert (a + b)[1..] == a[1..] + b;
    ValuesConcat(a[1..], b, key);
  }

  lemma InsertBetween<T>(before: seq<T>, more: seq<T>, after: seq<T>)
    ensures |before + (more + after)| == |before + after| + |more|
    ensures before + (more + after) == before + after <==> more == []
  {
    if more == [] {
      assert more + after == after;
    }
  }

  /** The later values of a key: those of before, and as many more. */
  ghost predicate GrowsBy(values: seq<string>, later: seq<string>, more: seq<string>) {
    |later| == |values| + |more| && (later == values <==> more == [])
  }

  lemma PlaceOthers(p: Place, lines: seq<string>, key: string, secret: string, other: string)
    requires IsPlace(p, lines, key) && (Ending(p.line) == "\n" || p.after == []) && other != key
    ensures GrowsBy(Values(lines, other), Values(Lines(Join(NewLines(lines, map[key := secret]))), other), Values(Rest(Lines(secret)), other))
  {
    WrittenValues(p, lines, key, secret, other);
    BehindEnded(p, lines, key, secret, other);
    InsertBetween(Values(p.before, other), Values(Rest(Lines(secret)), other), Values(p.after, other));
  }

  lemma WrittenPlace(raw: string, key: string, secret: string) returns (p: Place)
    requires Rewrite(raw, map[key := secret]).Ok?
    ensures IsPlace(p, Lines(raw), key)
    ensures Rewrite(raw, map[key := secret]).value == Join(NewLines(Lines(raw), map[key := secret]))
  {
    WholeLines(raw);
    RewriteSucceeds(raw, key, secret);
    RewrittenLines(Lines(raw), map[key := secret]);
    p := FindPlace(Lines(raw), key);
  }

  /** What every other key says before, and after a write. */
  ghost predicate OthersGrow(lines: seq<string>, more: seq<string>, key: string, secret: string) {
    forall other | other != key :: GrowsBy(Values(lines, other), Values(more, other), Values(Rest(Lines(secret)), other))
  }

  ghost predicate OthersAreSame(lines: seq<string>, more: seq<string>, key: string) {
    forall other | other != key :: Values(more, other) == Values(lines, other)
  }

  lemma SilentIsSame(lines: seq<string>, more: seq<string>, key: string, secret: string)
    requires OthersGrow(lines, more, key, secret)
    ensures OthersAreSame(lines, more, key) <==> IsSilent(secret, key)
  {
    forall other | other != key
      ensures Values(more, other) == Values(lines, other) <==> Values(Rest(Lines(secret)), other) == []
    {
      assert GrowsBy(Values(lines, other), Values(more, other), Values(Rest(Lines(secret)), other));
    }
  }

  /**
   For every secret, written to a line that ends in a line feed or with the file: of every other
   key the file says as much more as the secret's own lines after its first do, and so nothing
   changes for the others exactly when those lines name none of them.
   */
  lemma OthersAreExact(raw: string, key: string, secret: string)
    requires Rewrite(raw, map[key := secret]).Ok? && IsEnded(Lines(raw), key)
    ensures var more := Lines(Rewrite(raw, map[key := secret]).value);
            OthersGrow(Lines(raw), more, key, secret)
            && (OthersAreSame(Lines(raw), more, key) <==> IsSilent(secret, key))
  {
    var lines, more := Lines(raw), Lines(Rewrite(raw, map[key := secret]).value);
    var p := WrittenPlace(raw, key, secret);
    EndedPlace(p, lines, key);
    forall other | other != key
      ensures GrowsBy(Values(lines, other), Values(more, other), Values(Rest(Lines(secret)), other))
    {
      PlaceOthers(p, lines, key, secret, other);
    }
    SilentIsSame(lines, more, key, secret);
  }
}
