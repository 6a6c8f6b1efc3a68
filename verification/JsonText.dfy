// JSON values and the text that orders them: the json.dumps(value, sort_keys=True) keys of
// platform/scripts/shared_runtime_plan_guard.py. The text is shown to determine the value.
module JsonText {

  // A number is kept as the text that is written for it.
  predicate NumberCharacter(c: char) {
    '0' <= c <= '9' || c == '+' || c == '-' || c == '.' || c == 'e' || c == 'E'
  }

  predicate NumberText(s: string) {
    s != "" && forall i :: 0 <= i < |s| ==> NumberCharacter(s[i])
  }

  type Number = s: string | NumberText(s) witness "0"

  datatype Json =
    | Null
    | Bool(on: bool)
    | Num(digits: Number)
    | Str(text: string)
    | Arr(items: seq<Json>)
    | Obj(fields: map<string, Json>)

  // ---------- The order of strings ----------

  predicate AtMost(a: string, b: string) {
    a == "" || (b != "" && (a[0] < b[0] || (a[0] == b[0] && AtMost(a[1..], b[1..]))))
  }

  lemma {:induction false} AtMostTotal(a: string, b: string)
    ensures AtMost(a, b) || AtMost(b, a)
  {
    if a != "" && b != "" {
      AtMostTotal(a[1..], b[1..]);
    }
  }

  lemma {:induction false} AtMostAntisymmetric(a: string, b: string)
    requires AtMost(a, b) && AtMost(b, a)
    ensures a == b
  {
    if a != "" && b != "" {
      AtMostAntisymmetric(a[1..], b[1..]);
      assert a == [a[0]] + a[1..] && b == [b[0]] + b[1..];
    }
  }

  lemma {:induction false} AtMostTransitive(a: string, b: string, c: string)
    requires AtMost(a, b) && AtMost(b, c)
    ensures AtMost(a, c)
  {
    if a != "" && b != "" && c != "" && a[0] == b[0] == c[0] {
      AtMostTransitive(a[1..], b[1..], c[1..]);
    }
  }

  // ---------- Keys in order ----------

  lemma {:induction false} LeastExists(keys: set<string>)
    requires keys != {}
    ensures exists k :: k in keys && forall o :: o in keys ==> AtMost(k, o)
    decreases |keys|
  {
    var k :| k in keys;
    var rest := keys - {k};
    AtMostTotal(k, k);
    if rest != {} {
      LeastExists(rest);
      var m :| m in rest && forall o :: o in rest ==> AtMost(m, o);
      AtMostTotal(k, m);
      if AtMost(k, m) {
        forall o | o in keys ensures AtMost(k, o) {
          if o != k { AtMostTransitive(k, m, o); }
        }
      } else {
        assert m in keys && forall o :: o in keys ==> AtMost(m, o);
      }
    } else {
      assert keys == {k};
    }
  }

  function Least(keys: set<string>): (k: string)
    requires keys != {}
  {
    LeastExists(keys);
    assert forall a, b ::
      a in keys && b in keys && (forall o :: o in keys ==> AtMost(a, o)) && (forall o :: o in keys ==> AtMost(b, o))
      ==> a == b by {
      forall a, b | a in keys && b in keys && (forall o :: o in keys ==> AtMost(a, o)) && (forall o :: o in keys ==> AtMost(b, o))
        ensures a == b
      {
        AtMostAntisymmetric(a, b);
      }
    }
    var k :| k in keys && forall o :: o in keys ==> AtMost(k, o);
    k
  }

  function SortedKeys(keys: set<string>): (s: seq<string>)
    ensures forall k :: k in s <==> k in keys
    decreases |keys|
  {
    if keys == {} then [] else
      var k := Least(keys);
      [k] + SortedKeys(keys - {k})
  }

  /** The keys in order, each of them once. */
  lemma {:induction false} SortedKeysAscend(keys: set<string>)
    ensures forall i, j :: 0 <= i < j < |SortedKeys(keys)| ==>
      AtMost(SortedKeys(keys)[i], SortedKeys(keys)[j]) && SortedKeys(keys)[i] != SortedKeys(keys)[j]
    ensures multiset(SortedKeys(keys)) == multiset(keys)
    decreases |keys|
  {
    if keys != {} {
      var k := Least(keys);
      SortedKeysAscend(keys - {k});
      FirstAscends(k, SortedKeys(keys - {k}));
    }
  }

  lemma FirstAscends(k: string, rest: seq<string>)
    requires forall x <- rest :: AtMost(k, x) && k != x
    requires forall i, j :: 0 <= i < j < |rest| ==> AtMost(rest[i], rest[j]) && rest[i] != rest[j]
    ensures forall i, j :: 0 <= i < j < |[k] + rest| ==>
      AtMost(([k] + rest)[i], ([k] + rest)[j]) && ([k] + rest)[i] != ([k] + rest)[j]
  {
    var s := [k] + rest;
    forall i, j | 0 <= i < j < |s| ensures AtMost(s[i], s[j]) && s[i] != s[j] {
      assert s[j] == rest[j - 1] && s[j] in rest;
      assert i > 0 ==> s[i] == rest[i - 1];
    }
  }

  // ---------- Escaping: ASCII only, with surrogate pairs beyond the basic plane ----------

  function Digit(d: nat): (c: char)
    requires d < 16
  {
    if d < 10 then (48 + d) as char else (87 + d) as char
  }

  function Hex(n: nat, places: nat): (s: string)
    ensures |s| == places
  {
    if places == 0 then "" else Hex(n / 16, places - 1) + [Digit(n % 16)]
  }

  function Unit(n: nat): (s: string)
    ensures |s| == 6 && s[0] == '\\' && s[1] == 'u'
  {
    "\\u" + Hex(n, 4)
  }

  function Escape(c: char): (s: string)
    ensures s != ""
  {
    if c == '\"' then "\\\""
    else if c == '\\' then "\\\\"
    else if c == '\n' then "\\n"
    else if c == '\r' then "\\r"
    else if c == '\t' then "\\t"
    else if c as int == 8 then "\\b"
    else if c as int == 12 then "\\f"
    else if 0x20 <= c as int < 0x7f then [c]
    else if c as int < 0x10000 then Unit(c as int)
    else
      var n := c as int - 0x10000;
      Unit(0xD800 + n / 0x400) + Unit(0xDC00 + n % 0x400)
  }

  function Power16(places: nat): nat {
    if places == 0 then 1 else 16 * Power16(places - 1)
  }

  lemma {:induction false} HexDetermines(n: nat, m: nat, places: nat)
    requires n < Power16(places) && m < Power16(places)
    requires Hex(n, places) == Hex(m, places)
    ensures n == m
    decreases places
  {
    if places > 0 {
      SplitSame(Hex(n / 16, places - 1), [Digit(n % 16)], Hex(m / 16, places - 1), [Digit(m % 16)]);
      assert n % 16 == m % 16;
      HexDetermines(n / 16, m / 16, places - 1);
    }
  }

  lemma SplitSame<T>(s: seq<T>, x: seq<T>, t: seq<T>, y: seq<T>)
    requires |s| == |t| && s + x == t + y
    ensures s == t && x == y
  {
    assert (s + x)[..|s|] == s && (t + y)[..|t|] == t;
    assert (s + x)[|s|..] == x && (t + y)[|t|..] == y;
  }

  lemma UnitDetermines(n: nat, m: nat)
    requires n < 0x10000 && m < 0x10000
    requires Unit(n) == Unit(m)
    ensures n == m
  {
    SplitSame("\\u", Hex(n, 4), "\\u", Hex(m, 4));
    assert Power16(4) == 0x10000 by {
      assert Power16(2) == 256;
    }
    HexDetermines(n, m, 4);
  }

  predicate Wide(c: char) {
    c as int >= 0x10000
  }

  lemma PairDetermines(c: char, d: char)
    requires Wide(c) && Wide(d) && Escape(c) == Escape(d)
    ensures c == d
  {
    var n, m := c as int - 0x10000, d as int - 0x10000;
    SplitSame(Unit(0xD800 + n / 0x400), Unit(0xDC00 + n % 0x400), Unit(0xD800 + m / 0x400), Unit(0xDC00 + m % 0x400));
    UnitDetermines(0xD800 + n / 0x400, 0xD800 + m / 0x400);
    UnitDetermines(0xDC00 + n % 0x400, 0xDC00 + m % 0x400);
  }

  predicate Coded(c: char) {
    Escape(c)[0] == '\\' && |Escape(c)| == 6
  }

  lemma CodedDetermines(c: char, d: char)
    requires Coded(c) && Coded(d) && Escape(c) == Escape(d)
    ensures c == d
  {
    UnitDetermines(c as int, d as int);
  }

  // A code unit of a pair is no character of its own.
  lemma CodedIsNoPair(c: char, d: char, x: string, y: string)
    requires Coded(c) && Wide(d)
    ensures Escape(c) + x != Escape(d) + y
  {
    CodedIsUnit(c);
    var m := d as int - 0x10000;
    HighIsNoCharacter(c as int, m / 0x400, x, Unit(0xDC00 + m % 0x400) + y);
    assert Escape(d) + y == Unit(0xD800 + m / 0x400) + (Unit(0xDC00 + m % 0x400) + y);
  }

  lemma CodedIsUnit(c: char)
    requires Coded(c)
    ensures c as int < 0x10000 && Escape(c) == Unit(c as int)
  {
  }

  lemma HighIsNoCharacter(n: nat, high: nat, x: string, y: string)
    requires high < 0x400 && n < 0x10000 && !(0xD800 <= n < 0xDC00)
    ensures Unit(n) + x != Unit(0xD800 + high) + y
  {
    if Unit(n) + x == Unit(0xD800 + high) + y {
      SplitSame(Unit(n), x, Unit(0xD800 + high), y);
      UnitDetermines(n, 0xD800 + high);
      assert false;
    }
  }

  // No escape is the beginning of another one.
  lemma EscapeDetermines(c: char, d: char, x: string, y: string)
    requires Escape(c) + x == Escape(d) + y
    ensures c == d && x == y
  {
    var s, t := Escape(c) + x, Escape(d) + y;
    assert s[0] == Escape(c)[0] && t[0] == Escape(d)[0];
    assert |Escape(c)| > 1 && |Escape(d)| > 1 ==> s[1] == Escape(c)[1] && t[1] == Escape(d)[1];
    if Coded(c) && Wide(d) { CodedIsNoPair(c, d, x, y); }
    if Coded(d) && Wide(c) { CodedIsNoPair(d, c, y, x); }
    SplitSame(Escape(c), x, Escape(d), y);
    if |Escape(c)| <= 2 {
    } else if |Escape(c)| == 6 {
      CodedDetermines(c, d);
    } else {
      PairDetermines(c, d);
    }
  }

  // ---------- The text of a value ----------

  // The rest of a string literal: its escaped characters and the closing quote.
  function Rest(s: string): (r: string)
    ensures r != ""
  {
    if s == "" then "\"" else Escape(s[0]) + Rest(s[1..])
  }

  function Quote(s: string): (r: string)
  {
    "\"" + Rest(s)
  }

  function Dumps(j: Json): (r: string)
    decreases j
  {
    match j
    case Null => "null"
    case Bool(on) => if on then "true" else "false"
    case Num(digits) => digits
    case Str(text) => Quote(text)
    case Arr(_) => "[" + DumpItems(j, 0)
    case Obj(fields) => "{" + DumpFields(j, SortedKeys(fields.Keys), true)
  }

  function DumpItems(j: Json, from: nat): (r: string)
    requires j.Arr? && from <= |j.items|
    ensures r != ""
    decreases j, |j.items| - from
  {
    if from == |j.items| then "]"
    else Separator(from == 0) + Dumps(j.items[from]) + DumpItems(j, from + 1)
  }

  function DumpFields(j: Json, keys: seq<string>, first: bool): (r: string)
    requires j.Obj? && forall k <- keys :: k in j.fields
    ensures r != ""
    decreases j, |keys|
  {
    if keys == [] then "}"
    else
      Separator(first) + Quote(keys[0]) + ": " + Dumps(j.fields[keys[0]]) + DumpFields(j, keys[1..], false)
  }

  function Separator(first: bool): string {
    if first then "" else ", "
  }

  // ---------- The text determines the value ----------

  // What can follow a value inside a text.
  predicate EndCharacter(c: char) {
    c == ',' || c == ']' || c == '}'
  }

  predicate Ends(x: string) {
    x == "" || EndCharacter(x[0])
  }

  lemma {:induction false} RestDetermines(s: string, t: string, x: string, y: string)
    requires Rest(s) + x == Rest(t) + y
    ensures s == t && x == y
    decreases s
  {
    if s != "" { RestSplit(s, x); }
    if t != "" { RestSplit(t, y); }
    if s == "" || t == "" {
      assert (Rest(s) + x)[0] == Rest(s)[0] && (Rest(t) + y)[0] == Rest(t)[0];
      SplitSame(Rest(s), x, Rest(t), y);
    } else {
      EscapeDetermines(s[0], t[0], Rest(s[1..]) + x, Rest(t[1..]) + y);
      RestDetermines(s[1..], t[1..], x, y);
      assert s == [s[0]] + s[1..] && t == [t[0]] + t[1..];
    }
  }

  lemma RestSplit(s: string, x: string)
    requires s != ""
    ensures Rest(s) + x == Escape(s[0]) + (Rest(s[1..]) + x)
    ensures Rest(s)[0] != '\"'
  {
  }

  lemma QuoteDetermines(s: string, t: string, x: string, y: string)
    requires Quote(s) + x == Quote(t) + y
    ensures s == t && x == y
  {
    SplitAfter("\"", Rest(s), x, Rest(t), y);
    RestDetermines(s, t, x, y);
  }

  lemma Overlap(s: string, t: string, x: string, y: string)
    requires s + x == t + y && |s| < |t|
    ensures x != "" && x[0] == t[|s|]
  {
    assert (s + x)[|s|] == (t + y)[|s|];
  }

  lemma NumberIsWhole(s: Number, t: Number, x: string, y: string)
    requires s + x == t + y && Ends(x)
    ensures |t| <= |s|
  {
    if |s| < |t| {
      Overlap(s, t, x, y);
      assert false;
    }
  }

  lemma NumberDetermines(s: Number, t: Number, x: string, y: string)
    requires s + x == t + y && Ends(x) && Ends(y)
    ensures s == t && x == y
  {
    NumberIsWhole(s, t, x, y);
    NumberIsWhole(t, s, y, x);
    SplitSame(s, x, t, y);
  }

  lemma {:induction false} TextDetermines(a: Json, b: Json, x: string, y: string)
    requires Dumps(a) + x == Dumps(b) + y && Ends(x) && Ends(y)
    ensures a == b && x == y
    decreases a
  {
    assert (Dumps(a) + x)[0] == Dumps(a)[0] && (Dumps(b) + y)[0] == Dumps(b)[0];
    match a
    case Null => SplitSame(Dumps(a), x, Dumps(b), y);
    case Bool(_) => SplitSame(Dumps(a), x, Dumps(b), y);
    case Num(digits) => NumberDetermines(digits, b.digits, x, y);
    case Str(text) => QuoteDetermines(text, b.text, x, y);
    case Arr(items) =>
      SplitAfter("[", DumpItems(a, 0), x, DumpItems(b, 0), y);
      ItemsDetermine(a, b, 0, x, y);
      assert items == items[0..] && b.items == b.items[0..];
    case Obj(fields) =>
      var ks, ls := SortedKeys(fields.Keys), SortedKeys(b.fields.Keys);
      SplitAfter("{", DumpFields(a, ks, true), x, DumpFields(b, ls, true), y);
      FieldsDetermine(a, ks, b, ls, true, x, y);
      assert forall k :: k in fields <==> k in ks;
      assert forall k :: k in b.fields <==> k in ls;
      assert fields == b.fields;
  }

  lemma SplitAfter(s: string, t: string, x: string, u: string, y: string)
    requires (s + t) + x == (s + u) + y
    ensures t + x == u + y
  {
    assert (s + t) + x == s + (t + x) && (s + u) + y == s + (u + y);
    SplitSame(s, t + x, s, u + y);
  }

  lemma ItemsSplit(a: Json, from: nat, x: string)
    requires a.Arr? && from < |a.items|
    ensures DumpItems(a, from) + x == (Separator(from == 0) + Dumps(a.items[from])) + (DumpItems(a, from + 1) + x)
    ensures DumpItems(a, from)[0] != ']'
  {
  }

  lemma {:induction false} ItemsDetermine(a: Json, b: Json, from: nat, x: string, y: string)
    requires a.Arr? && b.Arr? && from <= |a.items| && from <= |b.items|
    requires DumpItems(a, from) + x == DumpItems(b, from) + y
    ensures a.items[from..] == b.items[from..] && x == y
    decreases a, |a.items| - from
  {
    if from < |a.items| { ItemsSplit(a, from, x); }
    if from < |b.items| { ItemsSplit(b, from, y); }
    assert (DumpItems(a, from) + x)[0] == DumpItems(a, from)[0] && (DumpItems(b, from) + y)[0] == DumpItems(b, from)[0];
    if from == |a.items| || from == |b.items| {
      SplitSame("]", x, "]", y);
    } else {
      var v, w := DumpItems(a, from + 1) + x, DumpItems(b, from + 1) + y;
      SplitAfter(Separator(from == 0), Dumps(a.items[from]), v, Dumps(b.items[from]), w);
      TextDetermines(a.items[from], b.items[from], v, w);
      ItemsDetermine(a, b, from + 1, x, y);
      assert a.items[from..] == [a.items[from]] + a.items[from + 1..];
      assert b.items[from..] == [b.items[from]] + b.items[from + 1..];
    }
  }

  function DumpField(j: Json, key: string): string
    requires j.Obj? && key in j.fields
  {
    Quote(key) + ": " + Dumps(j.fields[key])
  }

  lemma FieldsSplit(a: Json, keys: seq<string>, first: bool, x: string)
    requires a.Obj? && keys != [] && forall k <- keys :: k in a.fields
    ensures keys[0] in keys
    ensures DumpFields(a, keys, first) + x
         == (Separator(first) + DumpField(a, keys[0])) + (DumpFields(a, keys[1..], false) + x)
    ensures DumpFields(a, keys, first)[0] != '}'
  {
  }

  lemma FieldSplit(a: Json, k: string, x: string)
    requires a.Obj? && k in a.fields
    ensures DumpField(a, k) + x == Quote(k) + ((": " + Dumps(a.fields[k])) + x)
  {
  }

  lemma {:induction false} FieldDetermines(a: Json, k: string, b: Json, l: string, x: string, y: string)
    requires a.Obj? && b.Obj? && k in a.fields && l in b.fields
    requires DumpField(a, k) + x == DumpField(b, l) + y && Ends(x) && Ends(y)
    ensures k == l && a.fields[k] == b.fields[l] && x == y
    decreases a, 0
  {
    var v, w := ": " + Dumps(a.fields[k]), ": " + Dumps(b.fields[l]);
    FieldSplit(a, k, x);
    FieldSplit(b, l, y);
    QuoteDetermines(k, l, v + x, w + y);
    SplitAfter(": ", Dumps(a.fields[k]), x, Dumps(b.fields[l]), y);
    TextDetermines(a.fields[k], b.fields[l], x, y);
  }

  lemma {:induction false} FieldsDetermine(a: Json, ks: seq<string>, b: Json, ls: seq<string>, first: bool, x: string, y: string)
    requires a.Obj? && b.Obj? && (forall k <- ks :: k in a.fields) && (forall l <- ls :: l in b.fields)
    requires DumpFields(a, ks, first) + x == DumpFields(b, ls, first) + y
    ensures ks == ls && (forall k <- ks :: a.fields[k] == b.fields[k]) && x == y
    decreases a, 1 + |ks|
  {
    if ks != [] { FieldsSplit(a, ks, first, x); }
    if ls != [] { FieldsSplit(b, ls, first, y); }
    assert (DumpFields(a, ks, first) + x)[0] == DumpFields(a, ks, first)[0];
    assert (DumpFields(b, ls, first) + y)[0] == DumpFields(b, ls, first)[0];
    if ks == [] || ls == [] {
      SplitSame("}", x, "}", y);
    } else {
      var v, w := DumpFields(a, ks[1..], false) + x, DumpFields(b, ls[1..], false) + y;
      SplitAfter(Separator(first), DumpField(a, ks[0]), v, DumpField(b, ls[0]), w);
      FieldDetermines(a, ks[0], b, ls[0], v, w);
      FieldsDetermine(a, ks[1..], b, ls[1..], false, x, y);
      assert ks == [ks[0]] + ks[1..] && ls == [ls[0]] + ls[1..];
    }
  }

  /** Two values with the same sorted text are the same value. */
  lemma DumpsInjective(a: Json, b: Json)
    requires Dumps(a) == Dumps(b)
    ensures a == b
  {
    assert Dumps(a) + "" == Dumps(a) && Dumps(b) + "" == Dumps(b);
    TextDetermines(a, b, "", "");
  }
}
