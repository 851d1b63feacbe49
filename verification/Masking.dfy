/**
 The allow-rule index of the masking policy and the masks it applies.

 A rule names a physical schema and table. The policy stores rules under one
 joined key, "schema.table", in nested maps; the reference definition is a
 linear scan of all rules that compares schema and table separately.
 */
module Masking {
  import opened Common
  import opened TextRow

  datatype TypeFamily = NoFamily | TypeText | TypeNumeric | TypeDate | TypeTime | TypeTimestamp | TypeBinary

  datatype Field = Field(schema: string, originalTable: string, originalColumn: string, typeFamily: TypeFamily)

  datatype TableRule = TableRule(schema: string, table: string, allowAllColumns: bool, columns: seq<string>)

  datatype Config = Config(
    tableRules: seq<TableRule>,
    globalColumns: seq<string>,
    allowTables: seq<TableRule>,
    allowColumns: seq<TableRule>,
    allowColumnNames: seq<string>)

  // ----- names

  function LowerChar(c: char): char {
    if 'A' <= c <= 'Z' then (c as int + 32) as char else c
  }

  function Lower(s: string): (r: string)
    ensures |r| == |s|
  {
    seq(|s|, i requires 0 <= i < |s| => LowerChar(s[i]))
  }

  lemma LowerIdempotent(s: string)
    ensures Lower(Lower(s)) == Lower(s)
  {
  }

  function OriginKey(schema: string, table: string): string {
    Lower(schema) + "." + Lower(table)
  }

  // ----- the index

  datatype Index = Index(
    tableAll: set<string>,
    tableColumns: map<string, set<string>>,
    globalColumns: set<string>)
  {
    predicate Allowed(field: Field) {
      && HasOrigin(field)
      && var key := OriginKey(field.schema, field.originalTable);
         || key in tableAll
         || (key in tableColumns && Lower(field.originalColumn) in tableColumns[key])
         || Lower(field.originalColumn) in globalColumns
    }

    function Mask(field: Field, value: Value): Value {
      if value.None? then None
      else if Allowed(field) then value
      else Some(Placeholder(field.typeFamily))
    }
  }

  function Ascii(s: string): Bytes
    requires forall i :: 0 <= i < |s| ==> s[i] as int < 0x80
  {
    seq(|s|, i requires 0 <= i < |s| => s[i] as int as byte)
  }

  function Placeholder(family: TypeFamily): Bytes {
    match family
    case TypeNumeric => Ascii("0")
    case TypeDate => Ascii("0000-00-00")
    case TypeTime => Ascii("00:00:00")
    case TypeTimestamp => Ascii("0000-00-00 00:00:00")
    case TypeBinary => []
    case _ => Ascii("***MASKED***")
  }

  /** The bytes are those of `shape`, with the digit 0 for each 'd'. */
  predicate Zeroed(bytes: Bytes, shape: string) {
    && |bytes| == |shape|
    && forall i :: 0 <= i < |shape| ==> bytes[i] as int == if shape[i] == 'd' then '0' as int else shape[i] as int
  }

  /** Every mask is a value of its family: the number 0, the zero date, the zero
      time, the two with a space between them, or no bytes at all. Text is
      replaced by a word that is none of these. */
  lemma MasksFitTheirFamily()
    ensures Zeroed(Placeholder(TypeNumeric), "d")
    ensures Zeroed(Placeholder(TypeDate), "dddd-dd-dd") && Zeroed(Placeholder(TypeTime), "dd:dd:dd")
    ensures Placeholder(TypeTimestamp) == Placeholder(TypeDate) + [32] + Placeholder(TypeTime)
    ensures Placeholder(TypeBinary) == []
    ensures Placeholder(NoFamily) == Placeholder(TypeText)
    ensures forall family :: family != TypeText && family != NoFamily ==> Placeholder(family) != Placeholder(TypeText)
  {
    assert |Placeholder(TypeText)| == 12;
    var space := [32 as byte];
    assert Placeholder(TypeTimestamp) == Placeholder(TypeDate) + space + Placeholder(TypeTime);
  }

  /** A mask keeps the NULL positions, and a field that is not allowed shows
      nothing of a value but whether it is NULL. */
  lemma MaskHidesValue(index: Index, field: Field, a: Value, b: Value)
    requires a.Some? == b.Some?
    ensures index.Mask(field, a).None? <==> a.None?
    ensures !index.Allowed(field) ==> index.Mask(field, a) == index.Mask(field, b)
    ensures index.Allowed(field) ==> index.Mask(field, a) == a
  {
  }

  // ----- the rules the index is built from

  function ForceAll(rules: seq<TableRule>): (r: seq<TableRule>)
    ensures |r| == |rules|
    ensures forall i :: 0 <= i < |rules| ==> r[i] == rules[i].(allowAllColumns := true)
  {
    seq(|rules|, i requires 0 <= i < |rules| => rules[i].(allowAllColumns := true))
  }

  function Rules(c: Config): seq<TableRule> {
    c.tableRules + ForceAll(c.allowTables) + c.allowColumns
  }

  function GlobalNames(c: Config): seq<string> {
    c.globalColumns + c.allowColumnNames
  }

  ghost predicate Names(columns: seq<string>, lowered: string) {
    exists i :: 0 <= i < |columns| && Lower(columns[i]) == lowered
  }

  predicate HasOrigin(f: Field) {
    f.schema != "" && f.originalTable != "" && f.originalColumn != ""
  }

  ghost predicate Covers(rule: TableRule, f: Field) {
    rule.allowAllColumns || Names(rule.columns, Lower(f.originalColumn))
  }

  /** The rule names the physical table of the field. */
  predicate SameOrigin(rule: TableRule, f: Field) {
    Lower(rule.schema) == Lower(f.schema) && Lower(rule.table) == Lower(f.originalTable)
  }

  predicate SameKey(rule: TableRule, f: Field) {
    OriginKey(rule.schema, rule.table) == OriginKey(f.schema, f.originalTable)
  }

  /** Reference definition: a case-insensitive linear scan of all rules. */
  ghost predicate ScanAllows(c: Config, f: Field) {
    && HasOrigin(f)
    && (|| Names(GlobalNames(c), Lower(f.originalColumn))
        || exists i :: 0 <= i < |Rules(c)| && SameOrigin(Rules(c)[i], f) && Covers(Rules(c)[i], f))
  }

  /** The same scan, comparing joined keys in place of schema and table. */
  ghost predicate KeyScanAllows(c: Config, f: Field) {
    && HasOrigin(f)
    && (|| Names(GlobalNames(c), Lower(f.originalColumn))
        || exists i :: 0 <= i < |Rules(c)| && SameKey(Rules(c)[i], f) && Covers(Rules(c)[i], f))
  }

  // ----- building the index

  ghost predicate KeyIsFullTable(rules: seq<TableRule>, key: string) {
    exists i :: 0 <= i < |rules| && rules[i].allowAllColumns && OriginKey(rules[i].schema, rules[i].table) == key
  }

  ghost predicate KeyHasColumn(rules: seq<TableRule>, key: string, column: string) {
    exists i :: 0 <= i < |rules| && OriginKey(rules[i].schema, rules[i].table) == key && Names(rules[i].columns, column)
  }

  ghost predicate HoldsTables(index: Index, rules: seq<TableRule>) {
    forall key :: key in index.tableAll <==> KeyIsFullTable(rules, key)
  }

  predicate HasColumn(index: Index, key: string, column: string) {
    key in index.tableColumns && column in index.tableColumns[key]
  }

  ghost predicate HoldsColumns(index: Index, rules: seq<TableRule>) {
    forall key, column :: HasColumn(index, key, column) <==> KeyHasColumn(rules, key, column)
  }

  ghost predicate HoldsNames(names: set<string>, columns: seq<string>) {
    forall column :: column in names <==> Names(columns, column)
  }

  lemma NamesSnoc(columns: seq<string>, next: string, lowered: string)
    ensures Names(columns + [next], lowered) <==> Names(columns, lowered) || Lower(next) == lowered
  {
    var all := columns + [next];
    if Names(columns, lowered) {
      var i :| 0 <= i < |columns| && Lower(columns[i]) == lowered;
      assert all[i] == columns[i];
    }
    if Lower(next) == lowered {
      assert all[|columns|] == next;
    }
  }

  lemma FullTableSnoc(rules: seq<TableRule>, next: TableRule, key: string)
    ensures KeyIsFullTable(rules + [next], key)
       <==> KeyIsFullTable(rules, key) || (next.allowAllColumns && OriginKey(next.schema, next.table) == key)
  {
    var all := rules + [next];
    if KeyIsFullTable(rules, key) {
      var i :| 0 <= i < |rules| && rules[i].allowAllColumns && OriginKey(rules[i].schema, rules[i].table) == key;
      assert all[i] == rules[i];
    }
    assert all[|rules|] == next;
  }

  lemma HasColumnSnoc(rules: seq<TableRule>, next: TableRule, key: string, column: string)
    ensures KeyHasColumn(rules + [next], key, column)
       <==> || KeyHasColumn(rules, key, column)
            || (OriginKey(next.schema, next.table) == key && Names(next.columns, column))
  {
    var all := rules + [next];
    if KeyHasColumn(rules, key, column) {
      var i :| 0 <= i < |rules| && OriginKey(rules[i].schema, rules[i].table) == key && Names(rules[i].columns, column);
      assert all[i] == rules[i];
    }
    assert all[|rules|] == next;
  }

  lemma IndexIsKeyScan(index: Index, c: Config, f: Field)
    requires HoldsTables(index, Rules(c)) && HoldsColumns(index, Rules(c))
    requires HoldsNames(index.globalColumns, GlobalNames(c))
    ensures index.Allowed(f) <==> KeyScanAllows(c, f)
  {
    var rules := Rules(c);
    var key := OriginKey(f.schema, f.originalTable);
    var column := Lower(f.originalColumn);
    assert key in index.tableAll <==> KeyIsFullTable(rules, key);
    assert HasColumn(index, key, column) <==> KeyHasColumn(rules, key, column);
    assert column in index.globalColumns <==> Names(GlobalNames(c), column);
    if i :| 0 <= i < |rules| && SameKey(rules[i], f) && Covers(rules[i], f) {
      assert KeyIsFullTable(rules, key) || KeyHasColumn(rules, key, column);
    }
    if KeyIsFullTable(rules, key) {
      var i :| 0 <= i < |rules| && rules[i].allowAllColumns && OriginKey(rules[i].schema, rules[i].table) == key;
      assert SameKey(rules[i], f) && Covers(rules[i], f);
    }
    if KeyHasColumn(rules, key, column) {
      var i :| 0 <= i < |rules| && OriginKey(rules[i].schema, rules[i].table) == key && Names(rules[i].columns, column);
      assert SameKey(rules[i], f) && Covers(rules[i], f);
    }
  }

  class StaticPolicy {
    var tableAll: set<string>
    var tableColumns: map<string, set<string>>
    var globalColumns: set<string>

    function Contents(): Index
      reads this
    {
      Index(tableAll, tableColumns, globalColumns)
    }

    /** NewPolicy: the index allows a field exactly when some rule with the
        field's key, or some global column name, grants it. */
    constructor (config: Config)
      ensures forall f: Field :: Contents().Allowed(f) <==> KeyScanAllows(config, f)
    {
      tableAll, tableColumns, globalColumns := {}, map[], {};
      new;
      var i := 0;
      while i < |config.tableRules|
        invariant 0 <= i <= |config.tableRules|
        invariant HoldsTables(Contents(), config.tableRules[..i])
        invariant HoldsColumns(Contents(), config.tableRules[..i])
        invariant globalColumns == {}
      {
        AddTableRule(config.tableRules[i], config.tableRules[..i]);
        assert config.tableRules[..i + 1] == config.tableRules[..i] + [config.tableRules[i]];
        i := i + 1;
      }
      ghost var forced := ForceAll(config.allowTables);
      ghost var done := config.tableRules;
      assert config.tableRules[..i] == done && done + forced[..0] == done;
      i := 0;
      while i < |config.allowTables|
        invariant 0 <= i <= |config.allowTables|
        invariant HoldsTables(Contents(), done + forced[..i])
        invariant HoldsColumns(Contents(), done + forced[..i])
        invariant globalColumns == {}
      {
        var rule := config.allowTables[i].(allowAllColumns := true);
        AddTableRule(rule, done + forced[..i]);
        assert done + forced[..i + 1] == done + forced[..i] + [rule];
        i := i + 1;
      }
      assert forced[..i] == forced;
      done := done + forced;
      assert done + config.allowColumns[..0] == done;
      i := 0;
      while i < |config.allowColumns|
        invariant 0 <= i <= |config.allowColumns|
        invariant HoldsTables(Contents(), done + config.allowColumns[..i])
        invariant HoldsColumns(Contents(), done + config.allowColumns[..i])
        invariant globalColumns == {}
      {
        AddTableRule(config.allowColumns[i], done + config.allowColumns[..i]);
        assert done + config.allowColumns[..i + 1] == done + config.allowColumns[..i] + [config.allowColumns[i]];
        i := i + 1;
      }
      assert done + config.allowColumns[..i] == Rules(config);
      AddColumnNames(config.globalColumns, []);
      assert [] + config.globalColumns == config.globalColumns;
      AddColumnNames(config.allowColumnNames, config.globalColumns);
      forall f: Field
        ensures Contents().Allowed(f) <==> KeyScanAllows(config, f)
      {
        IndexIsKeyScan(Contents(), config, f);
      }
    }

    /** The loop over one list of global column names. */
    method AddColumnNames(columns: seq<string>, ghost before: seq<string>)
      requires HoldsNames(globalColumns, before)
      modifies this`globalColumns
      ensures HoldsNames(globalColumns, before + columns)
    {
      var i := 0;
      assert before + columns[..0] == before;
      while i < |columns|
        invariant 0 <= i <= |columns|
        invariant HoldsNames(globalColumns, before + columns[..i])
      {
        globalColumns := globalColumns + {Lower(columns[i])};
        assert before + columns[..i + 1] == before + columns[..i] + [columns[i]];
        forall column
          ensures column in globalColumns <==> Names(before + columns[..i + 1], column)
        {
          NamesSnoc(before + columns[..i], columns[i], column);
        }
        i := i + 1;
      }
      assert columns[..i] == columns;
    }

    method AddTableRule(rule: TableRule, ghost before: seq<TableRule>)
      requires HoldsTables(Contents(), before) && HoldsColumns(Contents(), before)
      modifies this`tableAll, this`tableColumns
      ensures HoldsTables(Contents(), before + [rule]) && HoldsColumns(Contents(), before + [rule])
    {
      var key := OriginKey(rule.schema, rule.table);
      if rule.allowAllColumns {
        tableAll := tableAll + {key};
      }
      forall k ensures k in tableAll <==> KeyIsFullTable(before + [rule], k) {
        FullTableSnoc(before, rule, k);
      }
      forall k, column
        ensures KeyHasColumn(before + [rule], k, column)
           <==> KeyHasColumn(before, k, column) || (key == k && Names(rule.columns, column))
      {
        HasColumnSnoc(before, rule, k, column);
      }
      if |rule.columns| == 0 {
        assert forall column :: !Names(rule.columns, column);
        return;
      }
      var columns: set<string> := if key in tableColumns then tableColumns[key] else {};
      ghost var start := columns;
      var i := 0;
      while i < |rule.columns|
        invariant 0 <= i <= |rule.columns|
        invariant forall column :: column in columns <==> column in start || Names(rule.columns[..i], column)
      {
        columns := columns + {Lower(rule.columns[i])};
        assert rule.columns[..i + 1] == rule.columns[..i] + [rule.columns[i]];
        forall column
          ensures column in columns <==> column in start || Names(rule.columns[..i + 1], column)
        {
          NamesSnoc(rule.columns[..i], rule.columns[i], column);
        }
        i := i + 1;
      }
      assert rule.columns[..i] == rule.columns;
      ghost var previous := Contents();
      tableColumns := tableColumns[key := columns];
      forall k, column
        ensures HasColumn(Contents(), k, column) <==> KeyHasColumn(before + [rule], k, column)
      {
        assert HasColumn(previous, k, column) <==> KeyHasColumn(before, k, column);
      }
    }
  }

  // ----- the verdict does not depend on the order of the rules

  /** Every grant of a is a grant of b. */
  ghost predicate NoMoreThan(a: Config, b: Config) {
    && (forall rule :: rule in Rules(a) ==> rule in Rules(b))
    && (forall name :: name in GlobalNames(a) ==> name in GlobalNames(b))
  }

  /** Adding rules, in any order, never turns an allowed field into a masked one. */
  lemma AddingRulesKeepsAllowed(a: Config, b: Config, f: Field)
    requires NoMoreThan(a, b)
    ensures KeyScanAllows(a, f) ==> KeyScanAllows(b, f)
    ensures ScanAllows(a, f) ==> ScanAllows(b, f)
  {
    var column := Lower(f.originalColumn);
    if Names(GlobalNames(a), column) {
      var i :| 0 <= i < |GlobalNames(a)| && Lower(GlobalNames(a)[i]) == column;
      assert GlobalNames(a)[i] in GlobalNames(b);
    }
    forall i | 0 <= i < |Rules(a)|
      ensures exists j :: 0 <= j < |Rules(b)| && Rules(b)[j] == Rules(a)[i]
    {
      assert Rules(a)[i] in Rules(b);
    }
  }

  /** Configurations with the same rules and names, in any order and any number
      of copies, give the same verdicts. */
  lemma VerdictIgnoresRuleOrder(a: Config, b: Config, f: Field)
    requires multiset(Rules(a)) == multiset(Rules(b))
    requires multiset(GlobalNames(a)) == multiset(GlobalNames(b))
    ensures KeyScanAllows(a, f) <==> KeyScanAllows(b, f)
    ensures ScanAllows(a, f) <==> ScanAllows(b, f)
  {
    forall rule ensures rule in Rules(a) <==> rule in Rules(b) {
      assert rule in Rules(a) <==> rule in multiset(Rules(a));
    }
    forall name ensures name in GlobalNames(a) <==> name in GlobalNames(b) {
      assert name in GlobalNames(a) <==> name in multiset(GlobalNames(a));
    }
    AddingRulesKeepsAllowed(a, b, f);
    AddingRulesKeepsAllowed(b, a, f);
  }

  // ----- when the joined key is as good as the pair

  /** Joined keys are equal for distinct origins exactly when the schemas have
      different lengths, so one of the names holds a dot. */
  lemma SameKeyIff(rule: TableRule, f: Field)
    ensures SameOrigin(rule, f) <==> SameKey(rule, f) && |rule.schema| == |f.schema|
    ensures SameKey(rule, f) && |rule.schema| < |f.schema| ==> '.' in Lower(f.schema)
    ensures SameKey(rule, f) && |f.schema| < |rule.schema| ==> '.' in Lower(rule.schema)
  {
    var n, m := |rule.schema|, |f.schema|;
    var k1, k2 := OriginKey(rule.schema, rule.table), OriginKey(f.schema, f.originalTable);
    assert k1[n] == '.' && k2[m] == '.';
    if k1 == k2 {
      if n == m {
        assert Lower(rule.schema) == k1[..n] == k2[..m] == Lower(f.schema);
        assert Lower(rule.table) == k1[n + 1..] == k2[m + 1..] == Lower(f.originalTable);
      } else if n < m {
        assert k2[n] == Lower(f.schema)[n];
      } else {
        assert k1[m] == Lower(rule.schema)[m];
      }
    }
  }

  lemma LowerKeepsDots(s: string)
    ensures '.' in Lower(s) <==> '.' in s
  {
    forall i | 0 <= i < |s| ensures Lower(s)[i] == '.' <==> s[i] == '.' {
    }
    if '.' in s {
      var i :| 0 <= i < |s| && s[i] == '.';
      assert Lower(s)[i] == '.';
    }
    if '.' in Lower(s) {
      var i :| 0 <= i < |s| && Lower(s)[i] == '.';
      assert s[i] == '.';
    }
  }

  /** With dot-free schema names the index allows what the scan allows. */
  lemma DotFreeIndexIsScan(c: Config, f: Field)
    requires '.' !in f.schema
    requires forall rule :: rule in Rules(c) ==> '.' !in rule.schema
    ensures KeyScanAllows(c, f) <==> ScanAllows(c, f)
  {
    LowerKeepsDots(f.schema);
    forall i | 0 <= i < |Rules(c)|
      ensures SameKey(Rules(c)[i], f) <==> SameOrigin(Rules(c)[i], f)
    {
      assert Rules(c)[i] in Rules(c);
      LowerKeepsDots(Rules(c)[i].schema);
      SameKeyIff(Rules(c)[i], f);
    }
  }

  /** A rule for schema "a", table "b.c" also unmasks schema "a.b", table "c". */
  lemma DottedNamesCollide()
    ensures var c := Config([TableRule("a", "b.c", true, [])], [], [], [], []);
            var f := Field("a.b", "c", "id", TypeText);
            KeyScanAllows(c, f) && !ScanAllows(c, f)
  {
    var rule := TableRule("a", "b.c", true, []);
    var c := Config([rule], [], [], [], []);
    var f := Field("a.b", "c", "id", TypeText);
    assert Rules(c) == [rule];
    assert Lower("a") == "a" && Lower("b.c") == "b.c" && Lower("a.b") == "a.b" && Lower("c") == "c";
    assert OriginKey("a", "b.c") == "a.b.c" == OriginKey("a.b", "c");
    assert SameKey(Rules(c)[0], f) && Covers(Rules(c)[0], f);
    assert !SameOrigin(Rules(c)[0], f);
    assert GlobalNames(c) == [];
  }

  // ----- exactly when the index and the scan agree on every field

  ghost predicate FullTableRule(c: Config, schema: string, table: string) {
    exists i :: 0 <= i < |Rules(c)| && Rules(c)[i].allowAllColumns
             && Lower(Rules(c)[i].schema) == schema && Lower(Rules(c)[i].table) == table
  }

  predicate Splits(key: string, at: nat) {
    0 < at < |key| - 1 && key[at] == '.'
  }

  /** What a rule grants is granted for every reading of its joined key as a
      schema and a table: cut the key at each of its dots and look the pair up. */
  ghost predicate ClosedUnderSplits(c: Config) {
    forall i, at :: 0 <= i < |Rules(c)| && Splits(OriginKey(Rules(c)[i].schema, Rules(c)[i].table), at) ==>
      SplitGranted(c, Rules(c)[i], at)
  }

  ghost predicate SplitGranted(c: Config, rule: TableRule, at: nat)
    requires Splits(OriginKey(rule.schema, rule.table), at)
  {
    var key := OriginKey(rule.schema, rule.table);
    && (rule.allowAllColumns ==> FullTableRule(c, key[..at], key[at + 1..]))
    && (forall j :: 0 <= j < |rule.columns| && rule.columns[j] != "" ==>
          ScanAllows(c, Field(key[..at], key[at + 1..], rule.columns[j], NoFamily)))
  }

  /** A column name longer than every name in the configuration. */
  function LongName(names: seq<string>): (r: string)
    ensures r != ""
    ensures forall i :: 0 <= i < |names| ==> |names[i]| < |r|
  {
    if names == [] then "x" else
      var rest := LongName(names[1..]);
      assert forall i :: 1 <= i < |names| ==> names[i] == names[1..][i - 1];
      rest + names[0]
  }

  function AllColumns(rules: seq<TableRule>): (r: seq<string>)
    ensures forall i, j :: 0 <= i < |rules| && 0 <= j < |rules[i].columns| ==> rules[i].columns[j] in r
  {
    if rules == [] then [] else
      assert forall i :: 1 <= i < |rules| ==> rules[i] == rules[1..][i - 1];
      rules[0].columns + AllColumns(rules[1..])
  }

  lemma ScanSeesLoweredOrigin(c: Config, f: Field)
    ensures ScanAllows(c, f)
       <==> ScanAllows(c, f.(schema := Lower(f.schema), originalTable := Lower(f.originalTable)))
  {
    var g := f.(schema := Lower(f.schema), originalTable := Lower(f.originalTable));
    LowerIdempotent(f.schema);
    LowerIdempotent(f.originalTable);
    forall i | 0 <= i < |Rules(c)| ensures SameOrigin(Rules(c)[i], f) <==> SameOrigin(Rules(c)[i], g) {
    }
  }

  lemma ClosedImpliesAgreement(c: Config, f: Field)
    requires ClosedUnderSplits(c)
    requires KeyScanAllows(c, f)
    ensures ScanAllows(c, f)
  {
    if !Names(GlobalNames(c), Lower(f.originalColumn)) {
      var i :| 0 <= i < |Rules(c)| && SameKey(Rules(c)[i], f) && Covers(Rules(c)[i], f);
      var rule := Rules(c)[i];
      var key := OriginKey(rule.schema, rule.table);
      var at := |f.schema|;
      assert key == Lower(f.schema) + "." + Lower(f.originalTable);
      assert Splits(key, at) && key[..at] == Lower(f.schema) && key[at + 1..] == Lower(f.originalTable);
      assert SplitGranted(c, rule, at);
      if rule.allowAllColumns {
        var k :| 0 <= k < |Rules(c)| && Rules(c)[k].allowAllColumns
              && Lower(Rules(c)[k].schema) == key[..at] && Lower(Rules(c)[k].table) == key[at + 1..];
        assert SameOrigin(Rules(c)[k], f) && Covers(Rules(c)[k], f);
      } else {
        var j :| 0 <= j < |rule.columns| && Lower(rule.columns[j]) == Lower(f.originalColumn);
        var g := Field(key[..at], key[at + 1..], rule.columns[j], NoFamily);
        assert |rule.columns[j]| == |f.originalColumn|;
        assert ScanAllows(c, g);
        var h := f.(schema := Lower(f.schema), originalTable := Lower(f.originalTable));
        forall k | 0 <= k < |Rules(c)|
          ensures SameOrigin(Rules(c)[k], g) && Covers(Rules(c)[k], g) ==>
                    SameOrigin(Rules(c)[k], h) && Covers(Rules(c)[k], h)
        {
        }
        assert ScanAllows(c, h);
        ScanSeesLoweredOrigin(c, f);
      }
    }
  }

  lemma SplitHasKey(rule: TableRule, at: nat, column: string)
    requires Splits(OriginKey(rule.schema, rule.table), at)
    ensures var key := OriginKey(rule.schema, rule.table);
            SameKey(rule, Field(key[..at], key[at + 1..], column, NoFamily))
  {
    var key := OriginKey(rule.schema, rule.table);
    LowerIdempotent(rule.schema);
    LowerIdempotent(rule.table);
    assert Lower(key) == key by {
      forall i | 0 <= i < |key| ensures LowerChar(key[i]) == key[i] {
        if i < |rule.schema| {
          assert key[i] == LowerChar(rule.schema[i]);
        } else if i > |rule.schema| {
          assert key[i] == LowerChar(rule.table[i - |rule.schema| - 1]);
        }
      }
    }
    assert Lower(key[..at]) == Lower(key)[..at];
    assert Lower(key[at + 1..]) == Lower(key)[at + 1..];
    assert key == key[..at] + "." + key[at + 1..];
  }

  lemma AgreementImpliesClosed(c: Config, i: nat, at: nat)
    requires forall f: Field :: KeyScanAllows(c, f) ==> ScanAllows(c, f)
    requires i < |Rules(c)| && Splits(OriginKey(Rules(c)[i].schema, Rules(c)[i].table), at)
    ensures SplitGranted(c, Rules(c)[i], at)
  {
    var rule := Rules(c)[i];
    var key := OriginKey(rule.schema, rule.table);
    if rule.allowAllColumns {
      var names := AllColumns(Rules(c)) + GlobalNames(c);
      var longName := LongName(names);
      var f := Field(key[..at], key[at + 1..], longName, NoFamily);
      SplitHasKey(rule, at, longName);
      assert SameKey(Rules(c)[i], f) && Covers(Rules(c)[i], f);
      assert KeyScanAllows(c, f) && ScanAllows(c, f);
      forall n: string | n in names ensures Lower(n) != Lower(longName) {
        var k :| 0 <= k < |names| && names[k] == n;
        assert |names[k]| < |longName|;
      }
      assert !Names(GlobalNames(c), Lower(longName)) by {
        forall k | 0 <= k < |GlobalNames(c)| ensures Lower(GlobalNames(c)[k]) != Lower(longName) {
          assert GlobalNames(c)[k] in names;
        }
      }
      var k :| 0 <= k < |Rules(c)| && SameOrigin(Rules(c)[k], f) && Covers(Rules(c)[k], f);
      assert Rules(c)[k].allowAllColumns by {
        forall j | 0 <= j < |Rules(c)[k].columns| ensures Lower(Rules(c)[k].columns[j]) != Lower(longName) {
          assert Rules(c)[k].columns[j] in names;
        }
      }
      SplitHasKey(rule, at, longName);
      LoweredKeyParts(rule, at);
      assert FullTableRule(c, key[..at], key[at + 1..]);
    }
    forall j | 0 <= j < |rule.columns| && rule.columns[j] != ""
      ensures ScanAllows(c, Field(key[..at], key[at + 1..], rule.columns[j], NoFamily))
    {
      var f := Field(key[..at], key[at + 1..], rule.columns[j], NoFamily);
      SplitHasKey(rule, at, rule.columns[j]);
      assert Lower(rule.columns[j]) == Lower(f.originalColumn);
      assert SameKey(Rules(c)[i], f) && Covers(Rules(c)[i], f);
      assert KeyScanAllows(c, f);
    }
  }

  lemma LoweredKeyParts(rule: TableRule, at: nat)
    requires Splits(OriginKey(rule.schema, rule.table), at)
    ensures var key := OriginKey(rule.schema, rule.table);
            Lower(key[..at]) == key[..at] && Lower(key[at + 1..]) == key[at + 1..]
  {
    var key := OriginKey(rule.schema, rule.table);
    SplitHasKey(rule, at, "");
    var joined := OriginKey(key[..at], key[at + 1..]);
    assert joined == key;
    assert joined[..at] == Lower(key[..at]) && joined[at + 1..] == Lower(key[at + 1..]);
  }

  /** The index and the linear scan agree on every field exactly when every
      rule's grant holds for each way of cutting its key at a dot. */
  lemma IndexAgreesExactlyWhenClosed(c: Config)
    ensures (forall f: Field :: KeyScanAllows(c, f) <==> ScanAllows(c, f)) <==> ClosedUnderSplits(c)
  {
    forall f: Field ensures ScanAllows(c, f) ==> KeyScanAllows(c, f) {
      if i :| 0 <= i < |Rules(c)| && SameOrigin(Rules(c)[i], f) && Covers(Rules(c)[i], f) {
        assert SameKey(Rules(c)[i], f);
      }
    }
    if ClosedUnderSplits(c) {
      forall f: Field | KeyScanAllows(c, f) ensures ScanAllows(c, f) {
        ClosedImpliesAgreement(c, f);
      }
    }
    if forall f: Field :: KeyScanAllows(c, f) <==> ScanAllows(c, f) {
      forall i, at | 0 <= i < |Rules(c)| && Splits(OriginKey(Rules(c)[i].schema, Rules(c)[i].table), at)
        ensures SplitGranted(c, Rules(c)[i], at)
      {
        AgreementImpliesClosed(c, i, at);
      }
    }
  }
}
