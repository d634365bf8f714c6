/** The values a YAML or JSON text is parsed into, and how Python code reads them. */
module Values {
  import opened Options
  import opened PyNumbers
  import opened Text

  datatype Key = Text(s: string) | Number(n: int) | Flag(b: bool) | Fraction(r: real) | Missing

  datatype Entry = Entry(key: Key, value: Value)

  datatype Value = Null | Bool(b: bool) | Int(n: int) | Real(r: real) | Str(s: string)
                 | List(items: seq<Value>) | Dict(entries: seq<Entry>)

  /** What Python's `str` prints for a real number, a list or a dictionary. */
  type Show = Value -> string

  function Find(entries: seq<Entry>, key: string): (i: nat)
    ensures i <= |entries| && (i < |entries| ==> entries[i].key == Text(key))
  {
    if entries == [] || entries[0].key == Text(key) then 0 else 1 + Find(entries[1..], key)
  }

  /** `d.get(key)` of a dictionary, `None` when the key is absent. */
  function Get(d: Value, key: string): Option<Value>
    requires d.Dict?
  {
    var i := Find(d.entries, key);
    if i < |d.entries| then Some(d.entries[i].value) else None
  }

  lemma {:induction false} GetIsInside(d: Value, key: string)
    requires d.Dict? && Get(d, key).Some?
    ensures Get(d, key).value < d
  {
    var e := d.entries[Find(d.entries, key)];
    assert e in d.entries && e.value < e < d;
  }

  function GetOr(d: Value, key: string, fallback: Value): Value
    requires d.Dict?
  {
    match Get(d, key) { case None => fallback case Some(v) => v }
  }

  /** `d[key] = value` on a dictionary that is being built. */
  function Put(entries: seq<Entry>, key: string, value: Value): seq<Entry> {
    var i := Find(entries, key);
    if i < |entries| then entries[i := Entry(Text(key), value)] else entries + [Entry(Text(key), value)]
  }

  /** `if cond: d[key] = value`. */
  function PutIf(entries: seq<Entry>, cond: bool, key: string, value: Value): seq<Entry> {
    if cond then Put(entries, key, value) else entries
  }

  lemma {:induction false} FindFirst(entries: seq<Entry>, key: string, i: nat)
    requires i <= |entries| && (i < |entries| ==> entries[i].key == Text(key))
    requires forall j :: 0 <= j < i ==> entries[j].key != Text(key)
    ensures Find(entries, key) == i
  {
    if i > 0 {
      FindFirst(entries[1..], key, i - 1);
    }
  }

  lemma {:induction false} FindSkips(entries: seq<Entry>, key: string)
    ensures forall j :: 0 <= j < Find(entries, key) ==> entries[j].key != Text(key)
  {
    if entries != [] && entries[0].key != Text(key) {
      FindSkips(entries[1..], key);
      forall j | 0 <= j < Find(entries, key) ensures entries[j].key != Text(key) {
        if j > 0 {
          assert entries[j] == entries[1..][j - 1];
        }
      }
    }
  }

  lemma {:induction false} PutGet(entries: seq<Entry>, key: string, value: Value, k: string)
    ensures Get(Dict(Put(entries, key, value)), k) == if k == key then Some(value) else Get(Dict(entries), k)
  {
    var r, i, j := Put(entries, key, value), Find(entries, key), Find(entries, k);
    FindSkips(entries, key);
    FindSkips(entries, k);
    if k == key {
      FindFirst(r, k, i);
    } else if j < |entries| {
      FindFirst(r, k, j);
    } else {
      FindFirst(r, k, |r|);
    }
  }

  lemma {:induction false} PutIfGet(entries: seq<Entry>, cond: bool, key: string, value: Value, k: string)
    ensures Get(Dict(PutIf(entries, cond, key, value)), k) ==
              if cond && k == key then Some(value) else Get(Dict(entries), k)
  {
    PutGet(entries, key, value, k);
    hide Put, Get;
  }

  // ---- conversions ----

  function PyStr(v: Value, show: Show): string {
    match v
    case Null => "None"
    case Bool(b) => if b then "True" else "False"
    case Int(n) => IntText(n)
    case Str(s) => s
    case _ => show(v)
  }

  function Trunc(r: real): int {
    if r >= 0.0 then r.Floor else -((-r).Floor)
  }

  /** `int(v)`. */
  function ToInt(v: Value): Option<int> {
    match v
    case Bool(b) => Some(if b then 1 else 0)
    case Int(n) => Some(n)
    case Real(r) => Some(Trunc(r))
    case Str(s) => ParseInt(s, false)
    case _ => None
  }

  predicate Truthy(v: Value) {
    match v
    case Null => false
    case Bool(b) => b
    case Int(n) => n != 0
    case Real(r) => r != 0.0
    case Str(s) => s != []
    case List(items) => items != []
    case Dict(entries) => entries != []
  }

  function LowerChar(c: char): char {
    if 'A' <= c <= 'Z' then (c as int + 32) as char else c
  }

  function Lower(s: string): (r: string)
    ensures |r| == |s|
  {
    seq(|s|, i requires 0 <= i < |s| => LowerChar(s[i]))
  }

  function Underscored(s: string): (r: string)
    ensures |r| == |s|
  {
    seq(|s|, i requires 0 <= i < |s| => if s[i] == '-' then '_' else s[i])
  }

  /** `v.lower()`, which only a string has. */
  function LowerOf(v: Value): Option<string> {
    if v.Str? then Some(Lower(v.s)) else None
  }

  /** Text in lower case and without hyphens, which both conversions leave as it is. */
  predicate Plain(s: string) {
    forall i :: 0 <= i < |s| ==> !('A' <= s[i] <= 'Z') && s[i] != '-'
  }

  lemma {:induction false} PlainStays(s: string)
    requires Plain(s)
    ensures Lower(s) == s && Underscored(s) == s
  {
  }

  /** A required text: any value but a missing one or `None`. */
  function Required(d: Value, key: string, show: Show): Option<string>
    requires d.Dict?
  {
    match Get(d, key)
    case None => None
    case Some(v) => if v.Null? then None else Some(PyStr(v, show))
  }

  function Optional(d: Value, key: string, fallback: string, show: Show): string
    requires d.Dict?
  {
    match Get(d, key)
    case None => fallback
    case Some(v) => if v.Null? then fallback else PyStr(v, show)
  }

  // ---- tables keyed by integers ----

  /** A Python key equal to an integer; `True` and `False` are such keys. */
  datatype IntKey = IntKey(value: int, flag: bool)

  datatype Row<+V> = Row(key: IntKey, value: V)

  /** `table[key] = value`: an equal key keeps its place and its spelling. */
  function SetRow<V>(table: seq<Row<V>>, key: IntKey, value: V): seq<Row<V>> {
    if table == [] then [Row(key, value)]
    else if table[0].key.value == key.value then [Row(table[0].key, value)] + table[1..]
    else [table[0]] + SetRow(table[1..], key, value)
  }

  /** The table after every entry has been read and set in turn. */
  function Fill<V>(table: seq<Row<V>>, entries: seq<Entry>, key: Key -> Option<IntKey>,
                   val: Value -> Option<V>): Option<seq<Row<V>>>
    decreases |entries|
  {
    if entries == [] then Some(table)
    else if key(entries[0].key).None? || val(entries[0].value).None? then None
    else Fill(SetRow(table, key(entries[0].key).value, val(entries[0].value).value), entries[1..], key, val)
  }

  function PrintKey(k: IntKey): string {
    if k.flag then if k.value == 1 then "True" else "False" else IntText(k.value)
  }

  function PrintRows<V>(table: seq<Row<V>>, print_: V -> Value): seq<Entry> {
    if table == [] then []
    else [Entry(Text(PrintKey(table[0].key)), print_(table[0].value))] + PrintRows(table[1..], print_)
  }

  predicate HasKey<V>(table: seq<Row<V>>, n: int) {
    table != [] && (table[0].key.value == n || HasKey(table[1..], n))
  }

  predicate DistinctKeys<V>(table: seq<Row<V>>) {
    table == [] || (!HasKey(table[1..], table[0].key.value) && DistinctKeys(table[1..]))
  }

  /** No key is a truth value. */
  predicate NoFlags<V>(table: seq<Row<V>>) {
    table == [] || (!table[0].key.flag && NoFlags(table[1..]))
  }

  lemma {:induction false} SetRowHas<V>(table: seq<Row<V>>, key: IntKey, value: V, n: int)
    ensures HasKey(SetRow(table, key, value), n) <==> HasKey(table, n) || n == key.value
  {
    if table != [] && table[0].key.value != key.value {
      SetRowHas(table[1..], key, value, n);
    }
  }

  lemma {:induction false} SetRowDistinct<V>(table: seq<Row<V>>, key: IntKey, value: V)
    requires DistinctKeys(table)
    ensures DistinctKeys(SetRow(table, key, value))
  {
    if table != [] && table[0].key.value != key.value {
      SetRowDistinct(table[1..], key, value);
      SetRowHas(table[1..], key, value, table[0].key.value);
    }
  }

  lemma {:induction false} SetRowNew<V>(table: seq<Row<V>>, key: IntKey, value: V)
    requires !HasKey(table, key.value)
    ensures SetRow(table, key, value) == table + [Row(key, value)]
  {
    if table != [] {
      SetRowNew(table[1..], key, value);
    }
  }

  lemma {:induction false} FillDistinct<V>(table: seq<Row<V>>, entries: seq<Entry>, key: Key -> Option<IntKey>,
                                           val: Value -> Option<V>)
    requires DistinctKeys(table) && Fill(table, entries, key, val).Some?
    ensures DistinctKeys(Fill(table, entries, key, val).value)
    decreases |entries|
  {
    if entries != [] {
      var k, v := key(entries[0].key).value, val(entries[0].value).value;
      SetRowDistinct(table, k, v);
      FillDistinct(SetRow(table, k, v), entries[1..], key, val);
    }
  }

  /** The rows have keys of their own, not used in `table`. */
  predicate Apart<V>(table: seq<Row<V>>, rows: seq<Row<V>>) {
    rows == [] || (!HasKey(table, rows[0].key.value) && !HasKey(rows[1..], rows[0].key.value)
                   && Apart(table, rows[1..]))
  }

  lemma {:induction false} ApartExtended<V>(table: seq<Row<V>>, row: Row<V>, rows: seq<Row<V>>)
    requires Apart(table, rows) && !HasKey(rows, row.key.value)
    ensures Apart(table + [row], rows)
  {
    if rows != [] {
      HasKeyAppend(table, row, rows[0].key.value);
      ApartExtended(table, row, rows[1..]);
    }
  }

  lemma {:induction false} HasKeyAppend<V>(table: seq<Row<V>>, row: Row<V>, n: int)
    ensures HasKey(table + [row], n) <==> HasKey(table, n) || n == row.key.value
  {
    if table != [] {
      HasKeyAppend(table[1..], row, n);
      assert (table + [row])[1..] == table[1..] + [row];
    }
  }

  lemma {:induction false} ApartFromNothing<V>(rows: seq<Row<V>>)
    requires DistinctKeys(rows)
    ensures Apart([], rows)
  {
    if rows != [] {
      ApartFromNothing(rows[1..]);
    }
  }

  /** Printed rows are read back one after another, unless a key is a truth value. */
  lemma {:induction false} FillPrinted<V>(table: seq<Row<V>>, rows: seq<Row<V>>, print_: V -> Value,
      key: Key -> Option<IntKey>, val: Value -> Option<V>)
    requires Apart(table, rows)
    requires forall k: IntKey :: k.flag ==> key(Text(PrintKey(k))) == None
    requires forall k: IntKey :: !k.flag ==> key(Text(PrintKey(k))) == Some(k)
    requires forall r :: r in rows ==> val(print_(r.value)) == Some(r.value)
    ensures Fill(table, PrintRows(rows, print_), key, val) == if NoFlags(rows) then Some(table + rows) else None
    decreases |rows|
  {
    hide PrintKey, SetRow, HasKey;
    var entries := PrintRows(rows, print_);
    if rows == [] {
      assert table + rows == table;
    } else {
      var row := rows[0];
      assert entries[0] == Entry(Text(PrintKey(row.key)), print_(row.value))
             && entries[1..] == PrintRows(rows[1..], print_);
      hide PrintRows;
      SetRowNew(table, row.key, row.value);
      ApartExtended(table, row, rows[1..]);
      FillPrinted(table + [row], rows[1..], print_, key, val);
      assert (table + [row]) + rows[1..] == table + rows;
    }
  }
}
