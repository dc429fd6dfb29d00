/**
 Row CHECK expressions in SQL's three-valued logic. A CHECK admits a row unless it evaluates to
 FALSE, so an expression that can become UNKNOWN admits rows it does not describe. The guard
 analysis below recognises expressions that cannot; `Decide` rewrites any expression into one.
 */
module SqlLogic {

  import opened Common

  /** The non-NULL columns of a row; a column missing here is NULL. */
  datatype Row = Row(texts: map<string, string>, ints: map<string, int>)

  datatype Column = Text(name: string) | Int(name: string)

  predicate IsPresent(c: Column, row: Row) {
    match c
    case Text(name) => name in row.texts
    case Int(name) => name in row.ints
  }

  datatype TextTerm = TextOf(column: string) | TextLiteral(text: string) | Concat(left: TextTerm, right: TextTerm)

  datatype IntTerm = IntOf(column: string) | IntLiteral(number: int) | Length(text: TextTerm)

  /** `Present` and `Absent` are AND chains of IS NOT NULL and of IS NULL. */
  datatype Check =
    | Present(columns: seq<Column>)
    | Absent(columns: seq<Column>)
    | TextEq(left: TextTerm, right: TextTerm)
    | TextIn(text: TextTerm, options: seq<string>)
    | IntEq(a: IntTerm, b: IntTerm)
    | AtLeast(a: IntTerm, b: IntTerm)
    | And(l: Check, r: Check)
    | Or(l: Check, r: Check)
    | Not(e: Check)

  // ----- evaluation -----

  datatype Truth = True | False | Unknown

  function Known(b: bool): Truth {
    if b then True else False
  }

  function TextValue(t: TextTerm, row: Row): Option<string> {
    match t
    case TextOf(column) => if column in row.texts then Some(row.texts[column]) else None
    case TextLiteral(text) => Some(text)
    case Concat(left, right) =>
      (match (TextValue(left, row), TextValue(right, row))
       case (Some(s), Some(u)) => Some(s + u)
       case _ => None)
  }

  function IntValue(t: IntTerm, row: Row): Option<int> {
    match t
    case IntOf(column) => if column in row.ints then Some(row.ints[column]) else None
    case IntLiteral(number) => Some(number)
    case Length(text) =>
      (match TextValue(text, row)
       case Some(s) => Some(|s|)
       case None => None)
  }

  function Kleene(a: Truth, b: Truth, absorbing: Truth): Truth {
    if a == absorbing || b == absorbing then absorbing
    else if a == Unknown || b == Unknown then Unknown
    else a
  }

  function Eval(e: Check, row: Row): Truth {
    match e
    case Present(columns) => Known(forall c <- columns :: IsPresent(c, row))
    case Absent(columns) => Known(forall c <- columns :: !IsPresent(c, row))
    case TextEq(left, right) =>
      (match (TextValue(left, row), TextValue(right, row))
       case (Some(s), Some(t)) => Known(s == t)
       case _ => Unknown)
    case TextIn(text, options) =>
      (match TextValue(text, row)
       case Some(s) => Known(s in options)
       case None => Unknown)
    case IntEq(a, b) =>
      (match (IntValue(a, row), IntValue(b, row))
       case (Some(m), Some(n)) => Known(m == n)
       case _ => Unknown)
    case AtLeast(a, b) =>
      (match (IntValue(a, row), IntValue(b, row))
       case (Some(m), Some(n)) => Known(m >= n)
       case _ => Unknown)
    case And(l, r) => Kleene(Eval(l, row), Eval(r, row), False)
    case Or(l, r) => Kleene(Eval(l, row), Eval(r, row), True)
    case Not(n) =>
      (match Eval(n, row)
       case True => False
       case False => True
       case Unknown => Unknown)
  }

  predicate Admits(e: Check, row: Row) {
    Eval(e, row) != False
  }

  /** How AND and OR admit a row. */
  lemma AdmitsPair(l: Check, r: Check, row: Row)
    ensures Admits(And(l, r), row) <==> Admits(l, row) && Admits(r, row)
    ensures Admits(Or(l, r), row) <==> Admits(l, row) || Admits(r, row)
  {
    assert Eval(And(l, r), row) == Kleene(Eval(l, row), Eval(r, row), False);
    assert Eval(Or(l, r), row) == Kleene(Eval(l, row), Eval(r, row), True);
  }

  lemma OrTrue(l: Check, r: Check, row: Row)
    ensures Eval(Or(l, r), row) == True <==> Eval(l, row) == True || Eval(r, row) == True
  {
    assert Eval(Or(l, r), row) == Kleene(Eval(l, row), Eval(r, row), True);
  }

  // ----- guard analysis -----

  function TextColumns(t: TextTerm): seq<Column> {
    match t
    case TextOf(column) => [Text(column)]
    case TextLiteral(_) => []
    case Concat(left, right) => TextColumns(left) + TextColumns(right)
  }

  function IntColumns(t: IntTerm): seq<Column> {
    match t
    case IntOf(column) => [Int(column)]
    case IntLiteral(_) => []
    case Length(text) => TextColumns(text)
  }

  predicate IsComparison(e: Check) {
    e.TextEq? || e.TextIn? || e.IntEq? || e.AtLeast?
  }

  /** The columns that must not be NULL for a comparison to have a truth value. */
  function Operands(e: Check): seq<Column>
    requires IsComparison(e)
  {
    match e
    case TextEq(left, right) => TextColumns(left) + TextColumns(right)
    case TextIn(text, _) => TextColumns(text)
    case IntEq(a, b) => IntColumns(a) + IntColumns(b)
    case AtLeast(a, b) => IntColumns(a) + IntColumns(b)
  }

  /** Columns that cannot be NULL when the expression is TRUE (`when`) or FALSE (`!when`). */
  function NotNullWhen(e: Check, when: bool): set<Column> {
    match e
    case Present(columns) => if when then (set c <- columns) else {}
    case Absent(columns) => if !when && |columns| == 1 then {columns[0]} else {}
    case And(l, r) =>
      if when then NotNullWhen(l, when) + NotNullWhen(r, when) else NotNullWhen(l, when) * NotNullWhen(r, when)
    case Or(l, r) =>
      if when then NotNullWhen(l, when) * NotNullWhen(r, when) else NotNullWhen(l, when) + NotNullWhen(r, when)
    case Not(n) => NotNullWhen(n, !when)
    case _ => set c <- Operands(e)
  }

  /**
   Accepts expressions whose comparisons all stand behind a guard: the left side of an AND is
   TRUE, and the left side of an OR is FALSE, wherever the right side matters, and vice versa.
   */
  predicate IsGuarded(e: Check, known: set<Column>) {
    match e
    case Present(_) => true
    case Absent(_) => true
    case And(l, r) =>
      (IsGuarded(l, known) && IsGuarded(r, known + NotNullWhen(l, true)))
      || (IsGuarded(r, known) && IsGuarded(l, known + NotNullWhen(r, true)))
    case Or(l, r) =>
      (IsGuarded(l, known) && IsGuarded(r, known + NotNullWhen(l, false)))
      || (IsGuarded(r, known) && IsGuarded(l, known + NotNullWhen(r, false)))
    case Not(n) => IsGuarded(n, known)
    case _ => forall c <- Operands(e) :: c in known
  }

  predicate ArePresent(columns: set<Column>, row: Row) {
    forall c <- columns :: IsPresent(c, row)
  }

  predicate AllPresent(columns: seq<Column>, row: Row) {
    forall c <- columns :: IsPresent(c, row)
  }

  lemma {:induction false} TextValueNull(t: TextTerm, row: Row)
    ensures TextValue(t, row).Some? <==> AllPresent(TextColumns(t), row)
  {
    if t.Concat? {
      TextValueNull(t.left, row);
      TextValueNull(t.right, row);
    } else if t.TextOf? {
      assert Text(t.column) in TextColumns(t);
    }
  }

  lemma IntValueNull(t: IntTerm, row: Row)
    ensures IntValue(t, row).Some? <==> AllPresent(IntColumns(t), row)
  {
    if t.Length? {
      TextValueNull(t.text, row);
    } else if t.IntOf? {
      assert Int(t.column) in IntColumns(t);
    }
  }

  /** A comparison is UNKNOWN exactly when one of its operands is NULL. */
  lemma ComparisonNull(e: Check, row: Row)
    requires IsComparison(e)
    ensures Eval(e, row) == Unknown <==> !AllPresent(Operands(e), row)
  {
    match e
    case TextEq(left, right) =>
      TextValueNull(left, row);
      TextValueNull(right, row);
    case TextIn(text, _) =>
      TextValueNull(text, row);
    case IntEq(a, b) =>
      IntValueNull(a, row);
      IntValueNull(b, row);
    case AtLeast(a, b) =>
      IntValueNull(a, row);
      IntValueNull(b, row);
  }

  lemma {:induction false} NotNullWhenSound(e: Check, when: bool, row: Row)
    requires Eval(e, row) == Known(when)
    ensures ArePresent(NotNullWhen(e, when), row)
  {
    match e
    case Present(columns) =>
    case Absent(columns) =>
    case And(l, r) =>
      if Eval(l, row) == Known(when) { NotNullWhenSound(l, when, row); }
      if Eval(r, row) == Known(when) { NotNullWhenSound(r, when, row); }
    case Or(l, r) =>
      if Eval(l, row) == Known(when) { NotNullWhenSound(l, when, row); }
      if Eval(r, row) == Known(when) { NotNullWhenSound(r, when, row); }
    case Not(n) =>
      NotNullWhenSound(n, !when, row);
    case _ =>
      ComparisonNull(e, row);
  }

  /** Soundness: an expression the analysis accepts is TRUE or FALSE on every row. */
  lemma {:induction false} GuardedIsDecided(e: Check, known: set<Column>, row: Row)
    requires IsGuarded(e, known) && ArePresent(known, row)
    ensures Eval(e, row) != Unknown
    decreases e
  {
    match e
    case Present(_) =>
    case Absent(_) =>
    case And(_, _) => GuardedPair(e, known, row, true);
    case Or(_, _) => GuardedPair(e, known, row, false);
    case Not(n) => GuardedIsDecided(n, known, row);
    case _ => ComparisonNull(e, row);
  }

  /** One side is decided; where it does not absorb the other, its guards decide the other too. */
  lemma {:induction false} GuardedPair(e: Check, known: set<Column>, row: Row, when: bool)
    requires IsGuarded(e, known) && ArePresent(known, row) && (if when then e.And? else e.Or?)
    ensures Eval(e, row) != Unknown
    decreases e, 0
  {
    if IsGuarded(e.l, known) && IsGuarded(e.r, known + NotNullWhen(e.l, when)) {
      GuardedIsDecided(e.l, known, row);
      if Eval(e.l, row) == Known(when) {
        NotNullWhenSound(e.l, when, row);
        GuardedIsDecided(e.r, known + NotNullWhen(e.l, when), row);
      }
    } else {
      GuardedIsDecided(e.r, known, row);
      if Eval(e.r, row) == Known(when) {
        NotNullWhenSound(e.r, when, row);
        GuardedIsDecided(e.l, known + NotNullWhen(e.r, when), row);
      }
    }
  }

  // ----- AND chains -----

  /** `first AND rest[0] AND rest[1] ...`, as SQL groups it. */
  function Conj(first: Check, rest: seq<Check>): Check {
    if rest == [] then first else And(Conj(first, rest[..|rest| - 1]), rest[|rest| - 1])
  }

  predicate AllTrue(es: seq<Check>, row: Row) {
    forall i | 0 <= i < |es| :: Eval(es[i], row) == True
  }

  predicate AnyFalse(es: seq<Check>, row: Row) {
    exists i | 0 <= i < |es| :: Eval(es[i], row) == False
  }

  lemma {:induction false} ConjTrue(first: Check, rest: seq<Check>, row: Row)
    ensures Eval(Conj(first, rest), row) == True <==> Eval(first, row) == True && AllTrue(rest, row)
    ensures Eval(Conj(first, rest), row) == False <==> Eval(first, row) == False || AnyFalse(rest, row)
    decreases |rest|
  {
    if rest != [] {
      var n := |rest| - 1;
      var past := rest[..n];
      ConjTrue(first, past, row);
      assert forall i | 0 <= i < n :: past[i] == rest[i];
      assert Eval(Conj(first, rest), row) == Kleene(Eval(Conj(first, past), row), Eval(rest[n], row), False);
      assert AllTrue(rest, row) <==> AllTrue(past, row) && Eval(rest[n], row) == True;
      if AnyFalse(past, row) {
        var i :| 0 <= i < n && Eval(past[i], row) == False;
        assert Eval(rest[i], row) == False;
      }
    }
  }

  /** Knowing more columns to be present cannot make a guarded expression unguarded. */
  lemma {:induction false} GuardedWider(e: Check, known: set<Column>, more: set<Column>)
    requires IsGuarded(e, known) && known <= more
    ensures IsGuarded(e, more)
    decreases e
  {
    match e
    case And(l, r) => GuardedWiderPair(e, known, more, true);
    case Or(l, r) => GuardedWiderPair(e, known, more, false);
    case Not(n) => GuardedWider(n, known, more);
    case Present(_) =>
    case Absent(_) =>
    case _ =>
  }

  lemma {:induction false} GuardedWiderPair(e: Check, known: set<Column>, more: set<Column>, when: bool)
    requires IsGuarded(e, known) && known <= more && (if when then e.And? else e.Or?)
    ensures IsGuarded(e, more)
    decreases e, 0
  {
    if IsGuarded(e.l, known) && IsGuarded(e.r, known + NotNullWhen(e.l, when)) {
      GuardedWider(e.l, known, more);
      GuardedWider(e.r, known + NotNullWhen(e.l, when), more + NotNullWhen(e.l, when));
    } else {
      GuardedWider(e.r, known, more);
      GuardedWider(e.l, known + NotNullWhen(e.r, when), more + NotNullWhen(e.r, when));
    }
  }

  /** In an AND chain the first term may guard all the others. */
  lemma {:induction false} GuardedConj(first: Check, rest: seq<Check>, known: set<Column>)
    requires IsGuarded(first, known) && forall e <- rest :: IsGuarded(e, known + NotNullWhen(first, true))
    ensures IsGuarded(Conj(first, rest), known) && NotNullWhen(first, true) <= NotNullWhen(Conj(first, rest), true)
    decreases |rest|
  {
    if rest != [] {
      var n := |rest| - 1;
      assert rest[n] in rest;
      GuardedConj(first, rest[..n], known);
      GuardedWider(rest[n], known + NotNullWhen(first, true), known + NotNullWhen(Conj(first, rest[..n]), true));
    }
  }

  lemma GuardedOr(l: Check, r: Check, known: set<Column>)
    requires IsGuarded(l, known) && IsGuarded(r, known)
    ensures IsGuarded(Or(l, r), known)
  {
    GuardedWider(r, known, known + NotNullWhen(l, false));
  }

  // ----- closing the gap -----

  /** An expression that is TRUE where `e` has the wanted truth value, and FALSE everywhere else. */
  function Decide(e: Check, want: bool): Check {
    match e
    case And(l, r) => if want then And(Decide(l, want), Decide(r, want)) else Or(Decide(l, want), Decide(r, want))
    case Or(l, r) => if want then Or(Decide(l, want), Decide(r, want)) else And(Decide(l, want), Decide(r, want))
    case Not(n) => Decide(n, !want)
    case Present(_) => if want then e else Not(e)
    case Absent(_) => if want then e else Not(e)
    case _ => And(Present(Operands(e)), if want then e else Not(e))
  }

  lemma {:induction false} DecideMeans(e: Check, want: bool, row: Row)
    ensures Eval(Decide(e, want), row) == Known(Eval(e, row) == Known(want))
  {
    match e
    case And(l, r) =>
      DecideMeans(l, want, row);
      DecideMeans(r, want, row);
    case Or(l, r) =>
      DecideMeans(l, want, row);
      DecideMeans(r, want, row);
    case Not(n) =>
      DecideMeans(n, !want, row);
    case Present(_) =>
    case Absent(_) =>
    case _ =>
      ComparisonNull(e, row);
  }

  /** The analysis accepts every expression that `Decide` produces. */
  lemma {:induction false} DecideIsGuarded(e: Check, want: bool, known: set<Column>)
    ensures IsGuarded(Decide(e, want), known)
  {
    match e
    case And(l, r) =>
      DecideIsGuarded(l, want, known);
      DecideIsGuarded(r, want, known + NotNullWhen(Decide(l, want), want));
    case Or(l, r) =>
      DecideIsGuarded(l, want, known);
      DecideIsGuarded(r, want, known + NotNullWhen(Decide(l, want), !want));
    case Not(n) =>
      DecideIsGuarded(n, !want, known);
    case Present(_) =>
    case Absent(_) =>
    case _ =>
      var more := known + NotNullWhen(Present(Operands(e)), true);
      assert IsGuarded(e, more) && IsGuarded(Not(e), more);
  }

  /** The rows a CHECK lets in beyond those it describes are exactly those where it is UNKNOWN. */
  lemma AdmissionGap(e: Check, row: Row)
    ensures Admits(e, row) && !Admits(Decide(e, true), row) <==> Eval(e, row) == Unknown
    ensures Admits(Decide(e, true), row) <==> Eval(e, row) == True
  {
    DecideMeans(e, true, row);
  }

  /** A guarded CHECK has no gap: what it admits is what it describes. */
  lemma GuardedHasNoGap(e: Check, known: set<Column>, row: Row)
    requires IsGuarded(e, known) && ArePresent(known, row)
    ensures Admits(e, row) <==> Eval(e, row) == True
  {
    GuardedIsDecided(e, known, row);
  }
}
