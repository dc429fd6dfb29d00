/**
 Revision 54's downgrade on SQLite: before a table is rebuilt, every table that refers to it,
 directly or through others, is rebuilt without its foreign keys into that group; afterwards,
 whether or not the rebuild succeeded, each is rebuilt as it was and its triggers are created again.
 */
module ForeignKeyClosure {

  import opened Common
  import Json

  /** `detail` stands for the columns and options of the constraint. */
  datatype ForeignKey = ForeignKey(referred: string, detail: string)

  /** `columns` stands for everything of a table that a rebuild copies besides its foreign keys. */
  datatype Table = Table(columns: string, foreignKeys: seq<ForeignKey>, triggers: seq<Trigger>)

  datatype Trigger = Trigger(name: string, sql: string)

  type Schema = map<string, Table>

  function Parents(schema: Schema, name: string): set<string> {
    if name in schema then set fk <- schema[name].foreignKeys :: fk.referred else {}
  }

  // ----- reference paths -----

  /** Each table of the path refers to the next; the last one is the root. */
  ghost predicate IsPath(schema: Schema, path: seq<string>, root: string) {
    path != [] && path[|path| - 1] == root
    && forall i | 0 <= i < |path| - 1 :: Refers(schema, path, i)
  }

  ghost predicate Refers(schema: Schema, path: seq<string>, i: nat)
    requires i + 1 < |path|
  {
    path[i + 1] in Parents(schema, path[i])
  }

  ghost predicate HasPath(schema: Schema, name: string, root: string, length: nat) {
    exists path :: IsPath(schema, path, root) && path[0] == name && |path| == length + 1
  }

  lemma PathExtends(schema: Schema, child: string, parent: string, root: string, length: nat)
    requires HasPath(schema, parent, root, length) && parent in Parents(schema, child)
    ensures HasPath(schema, child, root, length + 1)
  {
    var path :| IsPath(schema, path, root) && path[0] == parent && |path| == length + 1;
    var longer := [child] + path;
    forall i | 0 <= i < |longer| - 1 ensures Refers(schema, longer, i) {
      if i > 0 {
        assert Refers(schema, path, i - 1);
      }
    }
    assert IsPath(schema, longer, root);
  }

  type Depths = map<string, nat>

  /** No table outside the keys refers to one inside. */
  ghost predicate IsClosed(schema: Schema, depths: Depths) {
    forall name <- schema | name !in depths :: Parents(schema, name) !! depths.Keys
  }

  ghost predicate AreRealDepths(schema: Schema, depths: Depths, root: string) {
    forall name <- depths :: HasPath(schema, name, root, depths[name])
  }

  lemma {:induction false} PathStaysInside(schema: Schema, depths: Depths, path: seq<string>, root: string)
    requires IsClosed(schema, depths) && root in depths && IsPath(schema, path, root)
    ensures path[0] in depths
    decreases |path|
  {
    if |path| > 1 {
      var rest := path[1..];
      forall i | 0 <= i < |rest| - 1 ensures Refers(schema, rest, i) {
        assert Refers(schema, path, i + 1);
      }
      PathStaysInside(schema, depths, rest, root);
      assert Refers(schema, path, 0);
    }
  }

  // ----- the depth loop -----

  function MinDepth(parents: set<string>, depths: Depths): (m: nat)
    requires parents != {} && parents <= depths.Keys
    ensures exists p <- parents :: depths[p] == m
    ensures forall p <- parents :: m <= depths[p]
  {
    LeastExists(parents, depths);
    var m :| IsLeast(m, parents, depths);
    m
  }

  predicate IsLeast(m: nat, parents: set<string>, depths: Depths)
    requires parents <= depths.Keys
  {
    (exists p <- parents :: depths[p] == m) && forall p <- parents :: m <= depths[p]
  }

  lemma {:induction false} LeastExists(parents: set<string>, depths: Depths)
    requires parents != {} && parents <= depths.Keys
    ensures exists m: nat :: IsLeast(m, parents, depths)
    decreases |parents|
  {
    var p :| p in parents;
    var rest := parents - {p};
    if rest == {} {
      assert parents == {p};
      assert IsLeast(depths[p], parents, depths);
    } else {
      LeastExists(rest, depths);
      var m: nat :| IsLeast(m, rest, depths);
      assert IsLeast(if m < depths[p] then m else depths[p], parents, depths);
    }
  }

  /** What one look at a table adds: nothing, or its depth. */
  function Looked(schema: Schema, child: string, depths: Depths): Depths {
    var known := Parents(schema, child) * depths.Keys;
    if child in depths || known == {} then depths else depths[child := MinDepth(known, depths) + 1]
  }

  /** One pass over the tables. */
  function Pass(schema: Schema, names: seq<string>, depths: Depths): (r: Depths)
    ensures depths.Keys <= r.Keys <= depths.Keys + Elements(names)
    decreases |names|
  {
    if names == [] then depths
    else
      var n := |names| - 1;
      assert names[n] in names && forall name <- names[..n] :: name in names;
      Looked(schema, names[n], Pass(schema, names[..n], depths))
  }

  /** Passes until one adds nothing. */
  function Passes(schema: Schema, names: seq<string>, depths: Depths): Depths
    decreases Elements(names) - depths.Keys
  {
    var next := Pass(schema, names, depths);
    if next.Keys == depths.Keys then next else Passes(schema, names, next)
  }

  lemma PassOneMore(schema: Schema, names: seq<string>, i: nat, depths: Depths)
    requires i < |names|
    ensures Pass(schema, names[..i + 1], depths) == Looked(schema, names[i], Pass(schema, names[..i], depths))
  {
    assert names[..i + 1][..i] == names[..i];
  }

  /**
   In the order in which the tables were found, root first, the depth of each is at most one more
   than that of every parent found before it, and exactly one more than that of one of them.
   */
  ghost predicate IsFoundInOrder(schema: Schema, root: string, depths: Depths, order: seq<string>) {
    order != [] && order[0] == root
    && (forall name :: name in order <==> name in depths)
    && (forall i, j | 0 <= i < j < |order| :: order[i] != order[j])
    && forall i | 0 < i < |order| :: IsLeastAbove(schema, depths, order, i)
  }

  ghost predicate IsLeastAbove(schema: Schema, depths: Depths, order: seq<string>, i: nat)
    requires i < |order| && forall name <- order :: name in depths
  {
    (forall j | 0 <= j < i && order[j] in Parents(schema, order[i]) :: depths[order[i]] <= depths[order[j]] + 1)
    && exists j :: 0 <= j < i && order[j] in Parents(schema, order[i]) && depths[order[i]] == depths[order[j]] + 1
  }

  lemma FoundOneMore(schema: Schema, root: string, depths: Depths, order: seq<string>, child: string)
    requires IsFoundInOrder(schema, root, depths, order) && child !in depths && Parents(schema, child) * depths.Keys != {}
    ensures IsFoundInOrder(schema, root, depths[child := MinDepth(Parents(schema, child) * depths.Keys, depths) + 1], order + [child])
  {
    var known := Parents(schema, child) * depths.Keys;
    var least := MinDepth(known, depths);
    var next, longer := depths[child := least + 1], order + [child];
    forall i | 0 < i < |longer| ensures IsLeastAbove(schema, next, longer, i) {
      if i < |order| {
        FoundEarlier(schema, depths, next, order, longer, i);
      } else {
        var parent :| parent in known && depths[parent] == least;
        var j :| 0 <= j < |order| && order[j] == parent;
        assert longer[j] == parent;
      }
    }
  }

  lemma FoundEarlier(schema: Schema, depths: Depths, next: Depths, order: seq<string>, longer: seq<string>, i: nat)
    requires i < |order| && order <= longer && (forall name <- order :: name in depths) && (forall name <- longer :: name in next)
    requires (forall name <- order :: next[name] == depths[name]) && IsLeastAbove(schema, depths, order, i)
    ensures IsLeastAbove(schema, next, longer, i)
  {
    assert forall j | 0 <= j <= i :: longer[j] == order[j] && order[j] in order;
    var j :| 0 <= j < i && order[j] in Parents(schema, order[i]) && depths[order[i]] == depths[order[j]] + 1;
    assert longer[j] in Parents(schema, longer[i]);
  }

  /** So every table that refers to the root itself has depth 1. */
  lemma NextToRoot(schema: Schema, root: string, depths: Depths, order: seq<string>, name: string)
    requires IsFoundInOrder(schema, root, depths, order) && depths[root] == 0
    requires name in depths && name != root && root in Parents(schema, name)
    ensures depths[name] == 1
  {
    var i :| 0 <= i < |order| && order[i] == name;
    assert IsLeastAbove(schema, depths, order, i) && order[0] == root;
  }

  ghost predicate IsFound(schema: Schema, root: string, depths: Depths, order: seq<string>) {
    root in depths && depths[root] == 0 && depths.Keys <= schema.Keys
    && AreRealDepths(schema, depths, root) && IsFoundInOrder(schema, root, depths, order)
  }

  lemma LookedKeeps(schema: Schema, root: string, child: string, depths: Depths, order: seq<string>) returns (more: seq<string>)
    requires IsFound(schema, root, depths, order) && child in schema
    ensures IsFound(schema, root, Looked(schema, child, depths), more)
  {
    more := order;
    var known := Parents(schema, child) * depths.Keys;
    if child !in depths && known != {} {
      more := order + [child];
      var least := MinDepth(known, depths);
      var parent :| parent in known && depths[parent] == least;
      PathExtends(schema, child, parent, root, least);
      FoundOneMore(schema, root, depths, order, child);
    }
  }

  lemma {:induction false} PassKeeps(schema: Schema, root: string, names: seq<string>, depths: Depths, order: seq<string>)
    returns (more: seq<string>)
    requires IsFound(schema, root, depths, order) && forall name <- names :: name in schema
    ensures IsFound(schema, root, Pass(schema, names, depths), more)
    decreases |names|
  {
    if names == [] {
      more := order;
    } else {
      var n := |names| - 1;
      assert names[n] in names && forall name <- names[..n] :: name in names;
      more := PassKeeps(schema, root, names[..n], depths, order);
      more := LookedKeeps(schema, root, names[n], Pass(schema, names[..n], depths), more);
    }
  }

  lemma {:induction false} PassesKeep(schema: Schema, root: string, names: seq<string>, depths: Depths, order: seq<string>)
    returns (more: seq<string>)
    requires IsFound(schema, root, depths, order) && forall name <- names :: name in schema
    ensures IsFound(schema, root, Passes(schema, names, depths), more)
    decreases Elements(names) - depths.Keys
  {
    more := PassKeeps(schema, root, names, depths, order);
    var next := Pass(schema, names, depths);
    if next.Keys != depths.Keys {
      more := PassesKeep(schema, root, names, next, more);
    }
  }

  /** A pass that adds nothing has found no table with a known parent. */
  lemma {:induction false} IdlePass(schema: Schema, names: seq<string>, depths: Depths)
    requires Pass(schema, names, depths).Keys == depths.Keys
    ensures Pass(schema, names, depths) == depths
    ensures forall name <- names :: name in depths || Parents(schema, name) !! depths.Keys
    decreases |names|
  {
    if names != [] {
      var n := |names| - 1;
      IdlePass(schema, names[..n], depths);
      assert names == names[..n] + [names[n]];
      var known := Parents(schema, names[n]) * depths.Keys;
      assert forall parent <- Parents(schema, names[n]) | parent in depths.Keys :: parent in known;
    }
  }

  lemma {:induction false} PassesClose(schema: Schema, names: seq<string>, depths: Depths)
    requires forall name <- schema :: name in names
    ensures IsClosed(schema, Passes(schema, names, depths))
    decreases Elements(names) - depths.Keys
  {
    var next := Pass(schema, names, depths);
    if next.Keys == depths.Keys {
      IdlePass(schema, names, depths);
    } else {
      PassesClose(schema, names, next);
    }
  }

  /** What the passes find, for every table graph. */
  lemma PassesMean(schema: Schema, names: seq<string>, root: string) returns (order: seq<string>)
    requires root in schema && forall name :: name in names <==> name in schema
    ensures var depths := Passes(schema, names, map[root := 0]);
            IsFound(schema, root, depths, order) && IsClosed(schema, depths)
            && (forall name :: name in depths <==> exists length :: HasPath(schema, name, root, length))
            && forall name <- depths | name != root && root in Parents(schema, name) :: depths[name] == 1
  {
    var start: Depths := map[root := 0];
    assert HasPath(schema, root, root, 0) by {
      assert IsPath(schema, [root], root);
    }
    order := PassesKeep(schema, root, names, start, [root]);
    PassesClose(schema, names, start);
    var depths := Passes(schema, names, start);
    forall name, length: nat | HasPath(schema, name, root, length) ensures name in depths {
      var path :| IsPath(schema, path, root) && path[0] == name && |path| == length + 1;
      PathStaysInside(schema, depths, path, root);
    }
    forall name <- depths | name != root && root in Parents(schema, name) ensures depths[name] == 1 {
      NextToRoot(schema, root, depths, order, name);
    }
  }

  /** Which tables one look changes. */
  lemma LookedKeys(schema: Schema, child: string, depths: Depths)
    ensures Looked(schema, child, depths).Keys == depths.Keys
            <==> child in depths || Parents(schema, child) * depths.Keys == {}
    ensures depths.Keys <= Looked(schema, child, depths).Keys
  {
  }

  /**
   The `while changed` loop. It ends on every table graph, with cycles and self-references, and
   finds exactly the tables that refer to the root through some path; each depth is the length of
   one of those paths, and one more than the least depth of the parents found before the table
   (which is not always that of its shortest path: depths are updated within a pass).
   */
  method ComputeDepths(schema: Schema, names: seq<string>, root: string) returns (depths: Depths, ghost order: seq<string>)
    requires forall name :: name in names <==> name in schema
    requires root in schema
    ensures root in depths && depths[root] == 0 && depths.Keys <= schema.Keys
    ensures IsClosed(schema, depths) && AreRealDepths(schema, depths, root)
    ensures forall name :: name in depths <==> exists length :: HasPath(schema, name, root, length)
    ensures IsFoundInOrder(schema, root, depths, order)
    ensures forall name <- depths | name != root && root in Parents(schema, name) :: depths[name] == 1
    ensures depths == Passes(schema, names, map[root := 0])
  {
    depths := map[root := 0];
    var changed := true;
    while changed
      invariant Passes(schema, names, map[root := 0]) == if changed then Passes(schema, names, depths) else depths
      decreases Elements(names) - depths.Keys, changed
    {
      changed := false;
      ghost var before := depths;
      for i := 0 to |names|
        invariant depths == Pass(schema, names[..i], before) && (changed <==> depths.Keys != before.Keys)
      {
        var child := names[i];
        PassOneMore(schema, names, i, before);
        LookedKeys(schema, child, depths);
        if child !in depths {
          var known := Parents(schema, child) * depths.Keys;
          if known != {} {
            depths := depths[child := MinDepth(known, depths) + 1];
            changed := true;
          }
        }
      }
      assert names[..|names|] == names;
    }
    order := PassesMean(schema, names, root);
  }

  // ----- plans -----

  /** The table without its foreign keys into the affected group. */
  function Detached(table: Table, affected: set<string>): Table {
    table.(foreignKeys := KeysOutside(table.foreignKeys, affected))
  }

  function KeysOutside(keys: seq<ForeignKey>, affected: set<string>): (kept: seq<ForeignKey>)
    ensures forall fk :: fk in kept <==> fk in keys && fk.referred !in affected
    ensures forall fk :: multiset(kept)[fk] == if fk.referred in affected then 0 else multiset(keys)[fk]
  {
    assert keys != [] ==> keys == [keys[0]] + keys[1..];
    if keys == [] then []
    else (if keys[0].referred in affected then [] else [keys[0]]) + KeysOutside(keys[1..], affected)
  }

  /** Tuple order: by depth, then by name. */
  predicate Precedes(depths: Depths, a: string, b: string)
    requires a in depths && b in depths
  {
    depths[a] < depths[b] || (depths[a] == depths[b] && Json.LexLeq(a, b))
  }

  predicate IsFirstPlan(depths: Depths, name: string, among: set<string>)
    requires among <= depths.Keys
  {
    name in among && forall other <- among :: Precedes(depths, name, other)
  }

  lemma {:induction false} FirstPlanExists(depths: Depths, among: set<string>)
    requires among != {} && among <= depths.Keys
    ensures exists name :: IsFirstPlan(depths, name, among)
    decreases |among|
  {
    var name :| name in among;
    var rest := among - {name};
    Json.LexTotal(name, name);
    if rest == {} {
      assert among == {name};
      assert IsFirstPlan(depths, name, among);
    } else {
      FirstPlanExists(depths, rest);
      var first :| IsFirstPlan(depths, first, rest);
      Json.LexTotal(name, first);
      if Precedes(depths, name, first) {
        forall other <- among ensures Precedes(depths, name, other) {
          assert other != name ==> other in rest && Precedes(depths, first, other);
          if other != name && depths[name] == depths[first] == depths[other] {
            Json.LexTransitive(name, first, other);
          }
        }
        assert IsFirstPlan(depths, name, among);
      } else {
        assert IsFirstPlan(depths, first, among);
      }
    }
  }

  lemma FirstPlanUnique(depths: Depths, among: set<string>)
    requires among <= depths.Keys
    ensures forall a, b :: IsFirstPlan(depths, a, among) && IsFirstPlan(depths, b, among) ==> a == b
  {
    forall a, b | IsFirstPlan(depths, a, among) && IsFirstPlan(depths, b, among) ensures a == b {
      Json.LexAntisymmetric(a, b);
    }
  }

  /** The names in the order of `sorted(plans)`. */
  function SortedNames(depths: Depths, among: set<string>): (order: seq<string>)
    requires among <= depths.Keys
    ensures forall name :: name in order <==> name in among
    ensures forall i, j | 0 <= i < j < |order| :: order[i] != order[j] && Precedes(depths, order[i], order[j])
    decreases |among|
  {
    if among == {} then []
    else
      FirstPlanExists(depths, among);
      FirstPlanUnique(depths, among);
      var first :| IsFirstPlan(depths, first, among);
      [first] + SortedNames(depths, among - {first})
  }

  // ----- triggers -----

  function WithTriggers(schema: Schema, name: string, triggers: seq<Trigger>): Schema
    requires name in schema
  {
    schema[name := schema[name].(triggers := schema[name].triggers + triggers)]
  }

  lemma WithTriggersAdds(schema: Schema, name: string, some: seq<Trigger>, more: seq<Trigger>)
    requires name in schema
    ensures WithTriggers(WithTriggers(schema, name, some), name, more) == WithTriggers(schema, name, some + more)
    ensures WithTriggers(schema, name, []) == schema
  {
    var t := schema[name].triggers;
    assert t + some + more == t + (some + more) && t + [] == t;
    assert schema[name].(triggers := t) == schema[name];
  }

  predicate HasTrigger(schema: Schema, trigger: string) {
    exists name <- schema :: exists t <- schema[name].triggers :: t.name == trigger
  }

  /** Creates the triggers one after the other; stops at one whose name is taken, and names it. */
  function Create(schema: Schema, name: string, triggers: seq<Trigger>): (Schema, Option<string>)
    requires name in schema
    decreases |triggers|
  {
    if triggers == [] then (schema, None)
    else if HasTrigger(schema, triggers[0].name) then (schema, Some(triggers[0].name))
    else Create(WithTriggers(schema, name, triggers[..1]), name, triggers[1..])
  }

  ghost predicate AreNew(schema: Schema, triggers: seq<Trigger>) {
    (forall t <- triggers :: !HasTrigger(schema, t.name))
    && forall i, j | 0 <= i < j < |triggers| :: triggers[i].name != triggers[j].name
  }

  /** New triggers are all created, in their order. */
  lemma {:induction false} CreateNew(schema: Schema, name: string, triggers: seq<Trigger>)
    requires name in schema && AreNew(schema, triggers)
    ensures Create(schema, name, triggers) == (WithTriggers(schema, name, triggers), None)
    decreases |triggers|
  {
    WithTriggersAdds(schema, name, [], []);
    if triggers != [] {
      var next := WithTriggers(schema, name, triggers[..1]);
      assert triggers[..1] + triggers[1..] == triggers;
      WithTriggersAdds(schema, name, triggers[..1], triggers[1..]);
      forall t <- triggers[1..] ensures !HasTrigger(next, t.name) {
        OneMoreTrigger(schema, name, triggers[0], t.name);
        assert triggers[..1] == [triggers[0]];
      }
      CreateNew(next, name, triggers[1..]);
    }
  }

  lemma OneMoreTrigger(schema: Schema, name: string, trigger: Trigger, other: string)
    requires name in schema
    ensures HasTrigger(WithTriggers(schema, name, [trigger]), other) <==> HasTrigger(schema, other) || trigger.name == other
  {
    var next := WithTriggers(schema, name, [trigger]);
    assert next[name].triggers == schema[name].triggers + [trigger] && trigger in next[name].triggers;
    forall n <- schema, t <- schema[n].triggers | t.name == other ensures HasTrigger(next, other) {
      assert t in next[n].triggers;
    }
  }

  /** SQLite's trigger names are unique in the whole schema. */
  ghost predicate HasDistinctTriggers(schema: Schema) {
    forall a <- schema, b <- schema, i: nat, j: nat | i < |schema[a].triggers| && j < |schema[b].triggers| ::
      schema[a].triggers[i].name == schema[b].triggers[j].name ==> a == b && i == j
  }

  /** Each table has the triggers it was reflected with, or none. */
  ghost predicate HasTriggersOf(schema: Schema, reflected: Schema) {
    forall name <- schema :: schema[name].triggers == [] || (name in reflected && schema[name].triggers == reflected[name].triggers)
  }

  /** So the triggers of a table that has just been rebuilt are new. */
  lemma RebuiltTriggersAreNew(schema: Schema, reflected: Schema, name: string)
    requires HasDistinctTriggers(reflected) && HasTriggersOf(schema, reflected)
    requires name in schema && name in reflected && schema[name].triggers == []
    ensures AreNew(schema, reflected[name].triggers)
  {
    forall t <- reflected[name].triggers ensures !HasTrigger(schema, t.name) {
      var i: nat :| i < |reflected[name].triggers| && reflected[name].triggers[i] == t;
      forall n <- schema, u <- schema[n].triggers ensures u.name != t.name {
        var j: nat :| j < |schema[n].triggers| && schema[n].triggers[j] == u;
        assert reflected[n].triggers[j] == u && n != name;
      }
    }
  }

  // ----- rebuilding -----

  /** The schema with the tables of `some` replaced by those of `tables`. */
  function Replaced(schema: Schema, tables: Schema, some: set<string>): Schema
    requires some <= tables.Keys
  {
    map name <- schema :: if name in some then tables[name] else schema[name]
  }

  lemma ReplacedAdds(schema: Schema, tables: Schema, some: set<string>, name: string)
    requires some <= tables.Keys && name in schema && name in tables
    ensures Replaced(schema, tables, some)[name := tables[name]] == Replaced(schema, tables, some + {name})
    ensures Replaced(schema, tables, {}) == schema
  {
  }

  /** The affected tables as they are while detached. */
  function DetachedTables(schema: Schema, depths: Depths): Schema {
    map name <- schema :: Detached(schema[name], depths.Keys).(triggers := [])
  }

  function DetachedSchema(schema: Schema, root: string, depths: Depths): Schema
    requires depths.Keys <= schema.Keys
  {
    Replaced(schema, DetachedTables(schema, depths), depths.Keys - {root})
  }

  function Elements(names: seq<string>): set<string> {
    set name <- names
  }

  function Reversed(names: seq<string>): (r: seq<string>)
    ensures |r| == |names| && forall i | 0 <= i < |r| :: r[i] == names[|names| - 1 - i]
    ensures forall name :: name in r <==> name in names
  {
    if names == [] then [] else Reversed(names[1..]) + [names[0]]
  }

  class Database {
    var schema: Schema

    constructor (schema: Schema)
      ensures this.schema == schema
    {
      this.schema := schema;
    }

    /** `_force_recreate`: the copy takes the table's place; dropping the old one drops its triggers. */
    method ForceRecreate(name: string, copy: Table)
      modifies this
      ensures schema == old(schema)[name := copy.(triggers := [])]
    {
      schema := schema[name := copy.(triggers := [])];
    }

    method CreateTriggers(name: string, triggers: seq<Trigger>) returns (taken: Option<string>)
      requires name in schema
      modifies this
      ensures (schema, taken) == Create(old(schema), name, triggers)
    {
      assert triggers[0..] == triggers;
      for i := 0 to |triggers|
        invariant name in schema && Create(schema, name, triggers[i..]) == Create(old(schema), name, triggers)
      {
        var t := triggers[i];
        assert triggers[i..][1..] == triggers[i + 1..] && triggers[i..][..1] == [t];
        if HasTrigger(schema, t.name) {
          return Some(t.name);
        }
        schema := schema[name := schema[name].(triggers := schema[name].triggers + [t])];
      }
      taken := None;
    }

    /** Rebuilds the tables of `order`, one after the other. */
    method RecreateAll(order: seq<string>, tables: Schema)
      requires forall name <- order :: name in schema && name in tables && tables[name].triggers == []
      modifies this
      ensures Elements(order) <= tables.Keys && schema == Replaced(old(schema), tables, Elements(order))
    {
      assert Replaced(old(schema), tables, {}) == old(schema);
      for i := 0 to |order|
        invariant Elements(order[..i]) <= tables.Keys && schema == Replaced(old(schema), tables, Elements(order[..i]))
      {
        var name := order[i];
        assert name in order;
        ReplacedAdds(old(schema), tables, Elements(order[..i]), name);
        ForceRecreate(name, tables[name]);
        assert Elements(order[..i + 1]) == Elements(order[..i]) + {name} by {
          assert order[..i + 1] == order[..i] + [name];
        }
      }
      assert order[..|order|] == order;
    }

    /** Deepest first, each affected table but the root is rebuilt without its keys into the group. */
    method Detach(root: string, depths: Depths)
      requires root in depths && depths.Keys <= schema.Keys
      modifies this
      ensures schema == DetachedSchema(old(schema), root, depths)
    {
      var order := DetachOrder(root, depths);
      RecreateAll(order, DetachedTables(schema, depths));
      assert Elements(order) == depths.Keys - {root};
    }

    /** Rebuilds the tables of `order` as reflected, creating the triggers of each again. */
    method RestoreAll(order: seq<string>, reflected: Schema) returns (taken: Option<string>)
      requires forall name <- order :: name in schema && name in reflected
      requires HasDistinctTriggers(reflected) && HasTriggersOf(schema, reflected)
      modifies this
      ensures Elements(order) <= reflected.Keys && schema == Replaced(old(schema), reflected, Elements(order))
      ensures taken.None?
    {
      assert Replaced(old(schema), reflected, {}) == old(schema);
      for i := 0 to |order|
        invariant Elements(order[..i]) <= reflected.Keys && schema == Replaced(old(schema), reflected, Elements(order[..i]))
      {
        var name := order[i];
        assert name in order;
        ReplacedAdds(old(schema), reflected, Elements(order[..i]), name);
        RebuildRestores(schema, reflected, name);
        ForceRecreate(name, reflected[name]);
        taken := CreateTriggers(name, reflected[name].triggers);
        if taken.Some? {
          return;
        }
        assert Elements(order[..i + 1]) == Elements(order[..i]) + {name} by {
          assert order[..i + 1] == order[..i] + [name];
        }
      }
      assert order[..|order|] == order;
      taken := None;
    }

    /** The `finally` clause: shallowest first; the triggers of the root come last. */
    method Restore(root: string, depths: Depths, reflected: Schema) returns (taken: Option<string>)
      requires root in depths && depths.Keys <= schema.Keys && depths.Keys <= reflected.Keys
      requires HasDistinctTriggers(reflected) && HasTriggersOf(schema, reflected)
      modifies this
      ensures (schema, taken) == Finally(old(schema), root, depths, reflected)
    {
      var order := SortedNames(depths, depths.Keys - {root});
      taken := RestoreAll(order, reflected);
      assert Elements(order) == depths.Keys - {root};
      if taken.None? {
        taken := CreateTriggers(root, reflected[root].triggers);
      }
    }
  }

  /** A rebuilt table gets the triggers of its reflection. */
  lemma RebuiltGetsTriggers(schema: Schema, reflected: Schema, name: string, table: Table)
    requires HasDistinctTriggers(reflected) && HasTriggersOf(schema, reflected) && name in reflected
    ensures Create(schema[name := table.(triggers := [])], name, reflected[name].triggers)
         == (schema[name := table.(triggers := reflected[name].triggers)], None)
  {
    var rebuilt, triggers := schema[name := table.(triggers := [])], reflected[name].triggers;
    RebuiltTriggersAreNew(rebuilt, reflected, name);
    CreateNew(rebuilt, name, triggers);
    assert [] + triggers == triggers;
    assert WithTriggers(rebuilt, name, triggers)[name] == table.(triggers := triggers);
    assert WithTriggers(rebuilt, name, triggers) == schema[name := table.(triggers := triggers)];
  }

  /** Rebuilding a table from its reflection and creating its triggers again gives the table back. */
  lemma RebuildRestores(schema: Schema, reflected: Schema, name: string)
    requires HasDistinctTriggers(reflected) && HasTriggersOf(schema, reflected) && name in reflected
    ensures Create(schema[name := reflected[name].(triggers := [])], name, reflected[name].triggers)
         == (schema[name := reflected[name]], None)
  {
    RebuiltGetsTriggers(schema, reflected, name, reflected[name]);
    assert reflected[name].(triggers := reflected[name].triggers) == reflected[name];
  }

  /**
   While the root is rebuilt no other table at all, affected or not, refers to it or to any
   affected table, and nothing else about the foreign keys has changed.
   */
  lemma DetachedIsIsolated(schema: Schema, root: string, depths: Depths, name: string)
    requires depths.Keys <= schema.Keys && IsClosed(schema, depths) && name in schema && name != root
    ensures Parents(DetachedSchema(schema, root, depths), name) !! depths.Keys
    ensures forall fk: ForeignKey :: fk.referred !in depths ==>
              (fk in DetachedSchema(schema, root, depths)[name].foreignKeys <==> fk in schema[name].foreignKeys)
    ensures DetachedSchema(schema, root, depths)[name].columns == schema[name].columns
  {
    var table := DetachedSchema(schema, root, depths)[name];
    forall parent <- Parents(DetachedSchema(schema, root, depths), name) ensures parent !in depths {
      var fk :| fk in table.foreignKeys && fk.referred == parent;
      if name !in depths {
        assert fk.referred in Parents(schema, name);
      }
    }
  }

  // ----- the order of the rebuilds -----

  /** No other table refers to this one. */
  ghost predicate IsUnreferenced(schema: Schema, name: string) {
    forall other <- schema | other != name :: name !in Parents(schema, other)
  }

  function DetachOrder(root: string, depths: Depths): (order: seq<string>)
    ensures IsReverseOrder(order, depths)
    ensures forall name :: name in order <==> name in depths && name != root
  {
    Reversed(SortedNames(depths, depths.Keys - {root}))
  }

  /** Deepest first, and no table twice. */
  ghost predicate IsReverseOrder(order: seq<string>, depths: Depths) {
    (forall name <- order :: name in depths)
    && forall i, j | 0 <= i < j < |order| :: order[i] != order[j] && Precedes(depths, order[j], order[i])
  }

  /** The schema when the first `i` tables of the order have been rebuilt. */
  function PartlyDetached(schema: Schema, root: string, depths: Depths, i: nat): Schema
    requires depths.Keys <= schema.Keys && i <= |DetachOrder(root, depths)|
  {
    Replaced(schema, DetachedTables(schema, depths), Elements(DetachOrder(root, depths)[..i]))
  }

  /** Every table is rebuilt at a moment when no other refers to it. */
  ghost predicate IsInOrder(schema: Schema, root: string, depths: Depths)
    requires depths.Keys <= schema.Keys
  {
    forall i | 0 <= i < |DetachOrder(root, depths)| ::
      IsUnreferenced(PartlyDetached(schema, root, depths, i), DetachOrder(root, depths)[i])
  }

  /** References among the affected tables, but to the root or to the same table, go to a table that precedes. */
  ghost predicate RefersBackwards(schema: Schema, root: string, depths: Depths) {
    forall name <- depths, parent <- Parents(schema, name) | parent in depths && parent != root && parent != name ::
      Precedes(depths, parent, name)
  }

  /** Who still refers to a table when its turn comes: those of its referrers that are still to come, and the root. */
  lemma StillRefers(schema: Schema, root: string, depths: Depths, i: nat, other: string)
    requires depths.Keys <= schema.Keys && IsClosed(schema, depths) && i < |DetachOrder(root, depths)| && other in schema
    ensures var order := DetachOrder(root, depths);
            order[i] in Parents(PartlyDetached(schema, root, depths, i), other)
            <==> order[i] in Parents(schema, other) && other in depths && other !in order[..i]
  {
    var name := DetachOrder(root, depths)[i];
    assert name in DetachOrder(root, depths);
    assert other in Elements(DetachOrder(root, depths)[..i]) <==> other in DetachOrder(root, depths)[..i];
  }

  lemma RootIsFirst(schema: Schema, root: string, depths: Depths, name: string)
    requires root in depths && depths[root] == 0 && AreRealDepths(schema, depths, root) && name in depths && name != root
    ensures depths[name] > 0 && !Precedes(depths, name, root)
  {
    var path :| IsPath(schema, path, root) && path[0] == name && |path| == depths[name] + 1;
    assert path[|path| - 1] == root;
  }

  lemma DoneBefore(order: seq<string>, depths: Depths, i: nat, other: string)
    requires IsReverseOrder(order, depths) && i < |order| && other in depths && other != order[i]
    requires other !in order ==> !Precedes(depths, order[i], other)
    ensures other in order[..i] <==> Precedes(depths, order[i], other)
  {
    if other in order {
      var j :| 0 <= j < |order| && order[j] == other;
      DoneSucceeds(order, depths, i, j);
    } else {
      assert forall k | 0 <= k < i :: order[..i][k] == order[k] && order[k] in order;
    }
  }

  /** The turn of one table is in order exactly when no referrer of it precedes it or is the root. */
  lemma TurnIsInOrder(schema: Schema, root: string, depths: Depths, i: nat)
    requires root in depths && depths[root] == 0 && depths.Keys <= schema.Keys
    requires IsClosed(schema, depths) && AreRealDepths(schema, depths, root) && i < |DetachOrder(root, depths)|
    ensures var name := DetachOrder(root, depths)[i];
            IsUnreferenced(PartlyDetached(schema, root, depths, i), name)
            <==> forall other <- depths | other != name && name in Parents(schema, other) :: Precedes(depths, name, other)
  {
    var order := DetachOrder(root, depths);
    var name := order[i];
    assert name in order;
    RootIsFirst(schema, root, depths, name);
    forall other <- depths | other != name ensures other in order[..i] <==> Precedes(depths, name, other) {
      DoneBefore(order, depths, i, other);
    }
    forall other <- schema
      ensures name in Parents(PartlyDetached(schema, root, depths, i), other)
              <==> name in Parents(schema, other) && other in depths && other !in order[..i]
    {
      StillRefers(schema, root, depths, i, other);
    }
  }

  /** The tables rebuilt before another are those of the order that it precedes. */
  lemma DoneSucceeds(order: seq<string>, depths: Depths, i: nat, j: nat)
    requires IsReverseOrder(order, depths) && i < |order| && j < |order| && i != j
    ensures order[j] in order[..i] <==> Precedes(depths, order[i], order[j])
  {
    if j < i {
      assert order[..i][j] == order[j];
    } else {
      assert Precedes(depths, order[j], order[i]) && order[i] != order[j];
      if Precedes(depths, order[i], order[j]) {
        Json.LexAntisymmetric(order[i], order[j]);
      }
      forall k | 0 <= k < i ensures order[..i][k] != order[j] {
        assert order[k] != order[j];
      }
    }
  }

  /**
   Deepest-first detaching rebuilds every table only when no other refers to it any more, exactly
   when all references among the affected tables, but to the root or to the same table, go to one
   that precedes in the order of depth and name.
   */
  lemma DetachOrderIsExact(schema: Schema, root: string, depths: Depths)
    requires root in depths && depths[root] == 0 && depths.Keys <= schema.Keys
    requires IsClosed(schema, depths) && AreRealDepths(schema, depths, root)
    ensures IsInOrder(schema, root, depths) <==> RefersBackwards(schema, root, depths)
  {
    var order := DetachOrder(root, depths);
    forall i | 0 <= i < |order|
      ensures IsUnreferenced(PartlyDetached(schema, root, depths, i), order[i])
              <==> forall other <- depths | other != order[i] && order[i] in Parents(schema, other) :: Precedes(depths, order[i], other)
    {
      TurnIsInOrder(schema, root, depths, i);
    }
    if IsInOrder(schema, root, depths) {
      forall name <- depths, parent <- Parents(schema, name) | parent in depths && parent != root && parent != name
        ensures Precedes(depths, parent, name)
      {
        var i :| 0 <= i < |order| && order[i] == parent;
        assert IsUnreferenced(PartlyDetached(schema, root, depths, i), order[i]);
      }
    }
    if RefersBackwards(schema, root, depths) {
      forall i | 0 <= i < |order| ensures IsUnreferenced(PartlyDetached(schema, root, depths, i), order[i]) {
        assert order[i] in order;
      }
    }
  }

  /** `a` refers to `b` and both refer to the root. */
  function TwoChildren(root: string, a: string, b: string): Schema {
    map[root := Table("", [], []),
        a := Table("", [ForeignKey(b, ""), ForeignKey(root, "")], []),
        b := Table("", [ForeignKey(root, "")], [])]
  }

  lemma TwoChildrenRefer(root: string, a: string, b: string)
    requires root != a && root != b && a != b
    ensures TwoChildren(root, a, b).Keys == {root, a, b}
    ensures root in Parents(TwoChildren(root, a, b), a) && root in Parents(TwoChildren(root, a, b), b)
    ensures b in Parents(TwoChildren(root, a, b), a)
  {
    var schema := TwoChildren(root, a, b);
    assert schema[a].foreignKeys[0].referred == b && schema[a].foreignKeys[1].referred == root;
    assert schema[b].foreignKeys[0].referred == root;
  }

  lemma WrongOrder(schema: Schema, root: string, a: string, b: string, depths: Depths)
    requires root != a && root != b && a != b && depths == map[root := 0, a := 1, b := 1] && !Json.LexLeq(b, a)
    requires root in Parents(schema, a) && root in Parents(schema, b) && b in Parents(schema, a) && schema.Keys == depths.Keys
    ensures AreRealDepths(schema, depths, root) && IsClosed(schema, depths) && !IsInOrder(schema, root, depths)
  {
    assert HasPath(schema, root, root, 0) by {
      assert IsPath(schema, [root], root);
    }
    PathExtends(schema, a, root, root, 0);
    PathExtends(schema, b, root, root, 0);
    assert !Precedes(depths, b, a) && b in Parents(schema, a);
    DetachOrderIsExact(schema, root, depths);
  }

  /** Depths do not ensure it: the passes give both children depth 1, and if `a` comes first by name, `b` is rebuilt while `a` refers to it. */
  lemma RebuiltWhileReferenced(root: string, a: string, b: string, names: seq<string>)
    requires root != a && root != b && a != b && !Json.LexLeq(b, a)
    requires forall name :: name in names <==> name in TwoChildren(root, a, b)
    ensures var depths := Passes(TwoChildren(root, a, b), names, map[root := 0]);
            depths == map[root := 0, a := 1, b := 1] && !IsInOrder(TwoChildren(root, a, b), root, depths)
  {
    var schema := TwoChildren(root, a, b);
    TwoChildrenRefer(root, a, b);
    var order := PassesMean(schema, names, root);
    TwoDepths(schema, root, a, b, Passes(schema, names, map[root := 0]));
    WrongOrder(schema, root, a, b, Passes(schema, names, map[root := 0]));
  }

  lemma TwoDepths(schema: Schema, root: string, a: string, b: string, depths: Depths)
    requires root != a && root != b && a != b && schema.Keys == {root, a, b} && depths.Keys <= schema.Keys
    requires root in Parents(schema, a) && root in Parents(schema, b)
    requires root in depths && depths[root] == 0 && IsClosed(schema, depths)
    requires forall name <- depths | name != root && root in Parents(schema, name) :: depths[name] == 1
    ensures depths == map[root := 0, a := 1, b := 1]
  {
    assert a in depths && b in depths;
  }

  // ----- the whole context -----

  /** What the body of the `with` statement did to the root, and whether it raised, before or after that. */
  datatype Body = Rebuilt(table: Table, raised: bool) | LeftInPlace(raised: bool)

  datatype ContextError = BodyRaised | TriggerExists(name: string)

  function AfterBody(schema: Schema, root: string, body: Body): Schema {
    if body.Rebuilt? then schema[root := body.table.(triggers := [])] else schema
  }

  /** What the `finally` clause leaves, and the trigger it could not create. */
  function Finally(schema: Schema, root: string, depths: Depths, reflected: Schema): (Schema, Option<string>)
    requires root in depths && depths.Keys <= schema.Keys && depths.Keys <= reflected.Keys
  {
    Create(Replaced(schema, reflected, depths.Keys - {root}), root, reflected[root].triggers)
  }

  /** An error of the `finally` clause takes the place of the body's. */
  function ContextResult(body: Body, taken: Option<string>): Result<(), ContextError> {
    if taken.Some? then Err(TriggerExists(taken.value)) else if body.raised then Err(BodyRaised) else Ok(())
  }

  lemma DetachedHasTriggersOf(original: Schema, root: string, depths: Depths, body: Body)
    requires root in depths && depths.Keys <= original.Keys
    ensures HasTriggersOf(AfterBody(DetachedSchema(original, root, depths), root, body), original)
  {
  }

  lemma BodyThenReplaced(original: Schema, root: string, depths: Depths, body: Body)
    requires root in depths && depths.Keys <= original.Keys
    ensures Replaced(AfterBody(DetachedSchema(original, root, depths), root, body), original, depths.Keys - {root})
         == AfterBody(original, root, body)
  {
  }

  lemma TriggersInPlace(schema: Schema, root: string)
    requires root in schema && schema[root].triggers != []
    ensures Create(schema, root, schema[root].triggers) == (schema, Some(schema[root].triggers[0].name))
  {
    assert schema[root].triggers[0] in schema[root].triggers;
  }

  /**
   Whatever the body did, every other table is as it was, and the root is as it was or as
   rebuilt, with its triggers. The clause itself fails exactly when the root is still in place
   and has triggers: the first of them cannot be created again.
   */
  lemma ContextRestores(original: Schema, root: string, depths: Depths, body: Body)
    requires root in depths && depths.Keys <= original.Keys && HasDistinctTriggers(original)
    ensures var triggers := original[root].triggers;
            Finally(AfterBody(DetachedSchema(original, root, depths), root, body), root, depths, original)
            == (if body.Rebuilt? then original[root := body.table.(triggers := triggers)] else original,
                if body.LeftInPlace? && triggers != [] then Some(triggers[0].name) else None)
  {
    BodyThenReplaced(original, root, depths, body);
    var triggers := original[root].triggers;
    if body.Rebuilt? {
      RebuiltGetsTriggers(original, original, root, body.table);
    } else if triggers != [] {
      TriggersInPlace(original, root);
    }
  }

  /** A body that raises before it has dropped the root: its error is lost, though the schema is not. */
  lemma RaisedErrorIsMasked() returns (schema: Schema, root: string, depths: Depths, body: Body)
    ensures root in depths && depths.Keys <= schema.Keys && HasDistinctTriggers(schema) && body == LeftInPlace(true)
    ensures var (after, taken) := Finally(AfterBody(DetachedSchema(schema, root, depths), root, body), root, depths, schema);
            after == schema && ContextResult(body, taken) == Err(TriggerExists("runs_guard"))
  {
    root, depths, body := "runs", map["runs" := 0], LeftInPlace(true);
    schema := map["runs" := Table("", [], [Trigger("runs_guard", "")])];
    ContextRestores(schema, root, depths, body);
  }

  /** Closure, detach, the caller's body, restore. */
  method WithoutInboundForeignKeys(db: Database, names: seq<string>, root: string, body: Body)
    returns (r: Result<(), ContextError>)
    requires root in db.schema && (forall name :: name in names <==> name in db.schema) && HasDistinctTriggers(db.schema)
    modifies db
    ensures var original := old(db.schema);
            var triggers := original[root].triggers;
            db.schema == (if body.Rebuilt? then original[root := body.table.(triggers := triggers)] else original)
            && r == if body.LeftInPlace? && triggers != [] then Err(TriggerExists(triggers[0].name))
                    else if body.raised then Err(BodyRaised) else Ok(())
  {
    var original := db.schema;
    var depths, _ := ComputeDepths(original, names, root);
    ContextRestores(original, root, depths, body);
    DetachedHasTriggersOf(original, root, depths, body);
    db.Detach(root, depths);
    if body.Rebuilt? {
      db.ForceRecreate(root, body.table);
    }
    var taken := db.Restore(root, depths, original);
    r := ContextResult(body, taken);
  }
}
