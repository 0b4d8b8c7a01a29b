/** The symbol table of the Logo assembler, as an explicit value.

    The source keeps one process-wide dictionary from names to attribute dictionaries
    and a process-wide case-sensitivity flag; here the table is a `map` passed in and
    returned, the flag is the parameter `ci`, and every raise becomes an `Err`. A failing
    operation never mutates the source's table, so returning no table on `Err` loses nothing. */
module SymTable {
  import opened Wrappers
  import opened Text
  import opened Errors

  /** An attribute value: the source stores strings (`name`, `type`), integers
      (`lineno`, `usage`, `pc`) and lists of instruction strings (`code`). */
  datatype Value = VStr(s: string) | VInt(i: int) | VList(items: seq<string>)

  /** One entry: the attribute dictionary of a symbol. */
  type Attrs = map<string, Value>

  /** The whole table, keyed by translated symbol name. */
  type Table = map<string, Attrs>

  /** The storage and lookup key of `symbol`: upper-cased in case-insensitive mode. */
  function Key(ci: bool, symbol: string): (k: string)
    ensures |k| == |symbol|
    ensures !ci ==> k == symbol
    ensures ci ==> forall i :: 0 <= i < |k| ==> !IsLowerAscii(k[i])
  {
    if ci then Upper(symbol) else symbol
  }

  /** In case-insensitive mode the key folds to the same lowercase text as the name. */
  lemma KeyFoldsLikeName(ci: bool, symbol: string)
    requires ci
    ensures Lower(Key(ci, symbol)) == Lower(symbol)
  {
    UpperIdempotent(symbol);
    CaseFoldsAgree(Upper(symbol), symbol);
  }

  /** In case-insensitive mode two spellings share an entry exactly when they differ
      only in letter case; otherwise exactly when they are equal. Translating twice
      changes nothing. */
  lemma KeyIdentifiesSpellings(ci: bool, a: string, b: string)
    ensures ci ==> (Key(ci, a) == Key(ci, b) <==> Lower(a) == Lower(b))
    ensures !ci ==> (Key(ci, a) == Key(ci, b) <==> a == b)
    ensures Key(ci, Key(ci, a)) == Key(ci, a)
  {
    CaseFoldsAgree(a, b);
    UpperIdempotent(a);
  }

  /** `a.get(attr, default)` read as an integer; `None` when the stored value is not one
      (comparing or adding it raises `TypeError` in the source). */
  function IntAttr(a: Attrs, attr: string, default: int): (r: Option<int>)
    ensures attr !in a ==> r == Some(default)
    ensures attr in a ==> (r.Some? <==> a[attr].VInt?)
    ensures attr in a && r.Some? ==> r.value == a[attr].i
  {
    if attr !in a then Some(default)
    else match a[attr]
      case VInt(i) => Some(i)
      case _ => None
  }

  /** The entry holds a real (non-negative) declaration line. */
  predicate RealLine(a: Attrs) {
    "lineno" in a && a["lineno"].VInt? && a["lineno"].i >= 0
  }

  /** The entry is a forward reference: `lineno` is absent (read as -1) or negative. */
  predicate Forward(a: Attrs) {
    var n := IntAttr(a, "lineno", -1);
    n.Some? && n.value < 0
  }

  /** The source's `if obj:` test: an entry exists and is a non-empty dictionary. */
  predicate Declared(t: Table, k: string) {
    k in t && t[k] != map[]
  }

  /** Every entry carries `name` and `type`, as every entry created by `add_symbol` does. */
  ghost predicate Valid(t: Table) {
    forall k :: k in t ==> "name" in t[k] && "type" in t[k]
  }

  /** No entry other than the one under `k` is added, removed or changed. */
  ghost predicate Frame(t: Table, t': Table, k: string) {
    && (forall k' :: k' in t && k' != k ==> k' in t' && t'[k'] == t[k'])
    && (forall k' :: k' in t' && k' != k ==> k' in t)
  }

  /** `name` is kept, and a real `lineno` is kept, from entry `a` to entry `b`. */
  ghost predicate KeepsIdentity(a: Attrs, b: Attrs) {
    && ("name" in a ==> "name" in b && b["name"] == a["name"])
    && (RealLine(a) ==> "lineno" in b && b["lineno"] == a["lineno"])
  }

  /** The entry `add_symbol` creates for a new key. */
  function NewEntry(k: string, symType: string, attrs: Attrs): (e: Attrs)
    ensures e.Keys == attrs.Keys + {"name", "type"}
    ensures e["name"] == VStr(k) && e["type"] == VStr(symType)
    ensures forall a :: a in attrs && a != "name" && a != "type" ==> e[a] == attrs[a]
  {
    attrs["name" := VStr(k)]["type" := VStr(symType)]
  }

  /** `add_symbol(symbol, sym_type, **attrs)` with the redefinition check made against the
      stored entry, as intended (see `AddSymbolAsWritten` for the code as written), with an
      absent `lineno` read as -1 as `set_symbol` reads it. A new key gets `attrs` with `name`
      and `type` forced; a forward reference has `attrs` merged in; an entry with a real line
      is a redefinition. */
  function AddSymbol(t: Table, ci: bool, symbol: string, symType: string, attrs: Attrs): (r: Result<Table, Error>)
    ensures var k := Key(ci, symbol);
      r.Ok? <==> !Declared(t, k) || Forward(t[k])
    ensures var k := Key(ci, symbol);
      Declared(t, k) && RealLine(t[k]) ==> r == Err(Redefinition(symbol, t[k]["lineno"].i))
    ensures var k := Key(ci, symbol);
      !Declared(t, k) ==> r.Ok? && k in r.value && r.value[k] == NewEntry(k, symType, attrs)
    ensures var k := Key(ci, symbol);
      Declared(t, k) && r.Ok? ==> k in r.value && r.value[k] == t[k] + attrs
    ensures r.Ok? ==> Key(ci, symbol) in r.value && Frame(t, r.value, Key(ci, symbol))
    ensures r.Ok? ==> r.value.Keys == t.Keys + {Key(ci, symbol)}
    ensures Valid(t) && r.Ok? ==> Valid(r.value)
  {
    var k := Key(ci, symbol);
    if Declared(t, k) then
      match IntAttr(t[k], "lineno", -1)
      case None => Err(TypeMismatch(symbol, "lineno"))
      case Some(n) =>
        if n >= 0 then Err(Redefinition(symbol, n))
        else Ok(t[k := t[k] + attrs])
    else
      Ok(t[k := NewEntry(k, symType, attrs)])
  }

  /** `add_symbol` as written: on a declared key it evaluates `symbol.get("lineno")` on the
      key string, which raises, so every second `add_symbol` of a name fails. */
  function AddSymbolAsWritten(t: Table, ci: bool, symbol: string, symType: string, attrs: Attrs): (r: Result<Table, Error>)
    ensures r.Err? <==> Declared(t, Key(ci, symbol))
    ensures r.Err? ==> r.error == AttributeMisuse(symbol)
    ensures r.Ok? ==> r == AddSymbol(t, ci, symbol, symType, attrs)
  {
    var k := Key(ci, symbol);
    if Declared(t, k) then Err(AttributeMisuse(symbol))
    else Ok(t[k := NewEntry(k, symType, attrs)])
  }

  /** `set_symbol(symbol, **attrs)`: merges `attrs` into one existing entry, refusing an
      unknown symbol, any change of `name`, and any write of `lineno` once it is real. */
  function SetSymbol(t: Table, ci: bool, symbol: string, attrs: Attrs): (r: Result<Table, Error>)
    ensures var k := Key(ci, symbol);
      r.Ok? <==> k in t && "name" !in attrs && ("lineno" in attrs ==> Forward(t[k]))
    ensures Key(ci, symbol) !in t ==> r == Err(UnknownSymbol(symbol))
    ensures var k := Key(ci, symbol);
      k in t && "name" in attrs ==> r == Err(NameImmutable(symbol))
    ensures var k := Key(ci, symbol);
      k in t && "name" !in attrs && "lineno" in attrs && RealLine(t[k]) ==> r == Err(LinenoFrozen(symbol))
    ensures var k := Key(ci, symbol);
      r.Ok? ==> && k in r.value && Frame(t, r.value, k)
                && r.value[k].Keys == t[k].Keys + attrs.Keys
                && (forall a :: a in attrs ==> r.value[k][a] == attrs[a])
                && (forall a :: a in t[k] && a !in attrs ==> r.value[k][a] == t[k][a])
    ensures var k := Key(ci, symbol);
      r.Ok? ==> KeepsIdentity(t[k], r.value[k])
    ensures r.Ok? ==> r.value.Keys == t.Keys
    ensures Valid(t) && r.Ok? ==> Valid(r.value)
  {
    var k := Key(ci, symbol);
    if k !in t then Err(UnknownSymbol(symbol))
    else if "name" in attrs then Err(NameImmutable(symbol))
    else if "lineno" in attrs && IntAttr(t[k], "lineno", -1).None? then Err(TypeMismatch(symbol, "lineno"))
    else if "lineno" in attrs && IntAttr(t[k], "lineno", -1).value >= 0 then Err(LinenoFrozen(symbol))
    else Ok(t[k := t[k] + attrs])
  }

  /** `get_symbol(symbol)`: the entry under the translated key, or `None`; never fails. */
  function GetSymbol(t: Table, ci: bool, symbol: string): (r: Option<Attrs>)
    ensures r.Some? <==> Key(ci, symbol) in t
    ensures r.Some? ==> r.value == t[Key(ci, symbol)]
  {
    var k := Key(ci, symbol);
    if k in t then Some(t[k]) else None
  }

  /** `get_symbols_by_class(symType)`: the sub-table of entries whose `type` is `symType`.
      The source indexes `type` unguarded, so it needs every entry to carry one. */
  function SymbolsByClass(t: Table, symType: string): (r: Table)
    requires Valid(t)
    ensures forall k :: k in r <==> k in t && t[k]["type"] == VStr(symType)
    ensures forall k :: k in r ==> r[k] == t[k]
  {
    map k | k in t && t[k]["type"] == VStr(symType) :: t[k]
  }

  /** `remove_symbol(symbol)`: deletes exactly the translated key; unknown symbols fail. */
  function RemoveSymbol(t: Table, ci: bool, symbol: string): (r: Result<Table, Error>)
    ensures r.Ok? <==> Key(ci, symbol) in t
    ensures r.Err? ==> r.error == UnknownSymbol(symbol)
    ensures r.Ok? ==> r.value.Keys == t.Keys - {Key(ci, symbol)} && Frame(t, r.value, Key(ci, symbol))
    ensures Valid(t) && r.Ok? ==> Valid(r.value)
  {
    var k := Key(ci, symbol);
    if k in t then Ok(t - {k}) else Err(UnknownSymbol(symbol))
  }

  /** `increment_symbol_usage(symbol, lineno, amount)`: adds `amount` to `usage` (absent reads
      as 0) through `set_symbol`, changing nothing else. */
  function IncrementUsage(t: Table, ci: bool, symbol: string, lineno: int, amount: int): (r: Result<Table, Error>)
    ensures var k := Key(ci, symbol);
      r.Ok? <==> k in t && IntAttr(t[k], "usage", 0).Some?
    ensures Key(ci, symbol) !in t ==> r == Err(UnknownUse(symbol, lineno))
    ensures var k := Key(ci, symbol);
      r.Ok? ==> r.value == t[k := t[k]["usage" := VInt(IntAttr(t[k], "usage", 0).value + amount)]]
    ensures var k := Key(ci, symbol);
      r.Ok? && amount >= 0 ==> IntAttr(r.value[k], "usage", 0).value >= IntAttr(t[k], "usage", 0).value
    ensures Valid(t) && r.Ok? ==> Valid(r.value)
  {
    match GetSymbol(t, ci, symbol)
    case None => Err(UnknownUse(symbol, lineno))
    case Some(e) =>
      match IntAttr(e, "usage", 0)
      case None => Err(TypeMismatch(symbol, "usage"))
      case Some(u) =>
        assert e + map["usage" := VInt(u + amount)] == e["usage" := VInt(u + amount)];
        SetSymbol(t, ci, symbol, map["usage" := VInt(u + amount)])
  }

  /** After a successful `add_symbol`, `get_symbol` finds exactly the names whose key is the
      added key or was already present. */
  lemma AddThenGet(t: Table, ci: bool, symbol: string, symType: string, attrs: Attrs, query: string)
    requires AddSymbol(t, ci, symbol, symType, attrs).Ok?
    ensures var t' := AddSymbol(t, ci, symbol, symType, attrs).value;
      GetSymbol(t', ci, query).Some? <==> Key(ci, query) == Key(ci, symbol) || Key(ci, query) in t
  {
  }

  /** With `add_symbol("Foo", VAR)` on an empty table, `get_symbol("FOO")` finds the entry
      exactly when the table is case-insensitive. */
  lemma CaseModeDecidesLookup(ci: bool)
    ensures AddSymbol(map[], ci, "Foo", "VAR", map[]).Ok?
    ensures var t := AddSymbol(map[], ci, "Foo", "VAR", map[]).value;
      GetSymbol(t, ci, "FOO").Some? <==> ci
  {
    var t := AddSymbol(map[], ci, "Foo", "VAR", map[]).value;
    if !ci {
      assert "FOO" != "Foo" by { assert "FOO"[1] != "Foo"[1]; }
    } else {
      assert Key(ci, "FOO") == Key(ci, "Foo") by { KeyIdentifiesSpellings(ci, "FOO", "Foo"); }
    }
  }

  /** Adding a new name and then removing it gives back the original table. */
  lemma AddRemoveRoundTrip(t: Table, ci: bool, symbol: string, symType: string, attrs: Attrs)
    requires Key(ci, symbol) !in t
    ensures AddSymbol(t, ci, symbol, symType, attrs).Ok?
    ensures RemoveSymbol(AddSymbol(t, ci, symbol, symType, attrs).value, ci, symbol) == Ok(t)
  {
    var k := Key(ci, symbol);
    var t' := AddSymbol(t, ci, symbol, symType, attrs).value;
    assert t' - {k} == t;
  }

  /** A forward reference (`lineno=-1`) is upgraded by a declaration at a real line `n`;
      a further declaration is then a redefinition citing line `n`. */
  lemma ForwardReferenceUpgrade(t: Table, ci: bool, symbol: string, symType: string, n: int, m: int)
      returns (t1: Table, t2: Table)
    requires Key(ci, symbol) !in t
    requires n >= 0
    ensures AddSymbol(t, ci, symbol, symType, map["lineno" := VInt(-1)]) == Ok(t1)
    ensures AddSymbol(t1, ci, symbol, symType, map["lineno" := VInt(n)]) == Ok(t2)
    ensures t2[Key(ci, symbol)]["lineno"] == VInt(n)
    ensures AddSymbol(t2, ci, symbol, symType, map["lineno" := VInt(m)]) == Err(Redefinition(symbol, n))
  {
    var k := Key(ci, symbol);
    t1 := AddSymbol(t, ci, symbol, symType, map["lineno" := VInt(-1)]).value;
    assert t1[k]["lineno"] == VInt(-1);
    assert Declared(t1, k) && Forward(t1[k]);
    t2 := AddSymbol(t1, ci, symbol, symType, map["lineno" := VInt(n)]).value;
    assert t2[k] == t1[k] + map["lineno" := VInt(n)];
    assert Declared(t2, k) && RealLine(t2[k]);
  }

  /** As written, the same upgrade fails at its second step: the redefinition check on
      line 54 of `logoasm/symtable.py` reads the key string, not the stored entry. */
  lemma AsWrittenForwardUpgradeFails(t: Table, ci: bool, symbol: string, symType: string, n: int)
      returns (t1: Table)
    requires Key(ci, symbol) !in t
    ensures AddSymbolAsWritten(t, ci, symbol, symType, map["lineno" := VInt(-1)]) == Ok(t1)
    ensures AddSymbol(t1, ci, symbol, symType, map["lineno" := VInt(n)]).Ok?
    ensures AddSymbolAsWritten(t1, ci, symbol, symType, map["lineno" := VInt(n)]) == Err(AttributeMisuse(symbol))
  {
    var k := Key(ci, symbol);
    t1 := AddSymbolAsWritten(t, ci, symbol, symType, map["lineno" := VInt(-1)]).value;
    assert t1[k]["lineno"] == VInt(-1);
    assert Declared(t1, k) && Forward(t1[k]);
  }

  /** A second write to the same key of a map overrides the first. */
  lemma UpdateTwice<K, V>(m: map<K, V>, k: K, v1: V, v2: V)
    ensures m[k := v1][k := v2] == m[k := v2]
  {
    assert m[k := v1][k := v2].Keys == m[k := v2].Keys;
  }

  /** Two increments of the same symbol amount to one increment by the sum. */
  lemma IncrementsCompose(t: Table, ci: bool, symbol: string, l1: int, l2: int, a: int, b: int)
    requires IncrementUsage(t, ci, symbol, l1, a).Ok?
    ensures IncrementUsage(IncrementUsage(t, ci, symbol, l1, a).value, ci, symbol, l2, b)
         == IncrementUsage(t, ci, symbol, l1, a + b)
  {
    var k := Key(ci, symbol);
    var u := IntAttr(t[k], "usage", 0).value;
    var e1 := t[k]["usage" := VInt(u + a)];
    var e2 := t[k]["usage" := VInt(u + (a + b))];
    UpdateTwice(t[k], "usage", VInt(u + a), VInt(u + (a + b)));
    UpdateTwice(t, k, e1, e2);
    assert u + a + b == u + (a + b);
  }

  /** A run of `set_symbol` calls, stopping at the first failure. */
  function ApplySets(t: Table, ci: bool, calls: seq<(string, Attrs)>): (r: Result<Table, Error>)
    decreases |calls|
  {
    if |calls| == 0 then Ok(t)
    else match SetSymbol(t, ci, calls[0].0, calls[0].1)
      case Err(e) => Err(e)
      case Ok(t1) => ApplySets(t1, ci, calls[1..])
  }

  /** However many `set_symbol` calls succeed in a row, no entry disappears, no `name`
      changes, and a `lineno` that was real at the start still holds the same line. */
  lemma {:induction false} SetsKeepIdentity(t: Table, ci: bool, calls: seq<(string, Attrs)>)
    requires ApplySets(t, ci, calls).Ok?
    ensures var t' := ApplySets(t, ci, calls).value;
      t'.Keys == t.Keys && forall k :: k in t ==> KeepsIdentity(t[k], t'[k])
    decreases |calls|
  {
    if |calls| > 0 {
      var t1 := SetSymbol(t, ci, calls[0].0, calls[0].1).value;
      SetsKeepIdentity(t1, ci, calls[1..]);
      var t' := ApplySets(t, ci, calls).value;
      assert t' == ApplySets(t1, ci, calls[1..]).value;
      forall k | k in t ensures KeepsIdentity(t[k], t'[k]) {
        assert KeepsIdentity(t[k], t1[k]);
        assert KeepsIdentity(t1[k], t'[k]);
      }
    }
  }

  /** Inserting entry `e` under a fresh key adds it to the view of its own class only. */
  lemma ClassViewOfInsert(t: Table, k: string, e: Attrs, c: string)
    requires Valid(t) && k !in t && "name" in e && "type" in e
    ensures Valid(t[k := e])
    ensures SymbolsByClass(t[k := e], c)
         == if e["type"] == VStr(c) then SymbolsByClass(t, c)[k := e] else SymbolsByClass(t, c)
  {
    var t' := t[k := e];
    var v := SymbolsByClass(t', c);
    var w := if e["type"] == VStr(c) then SymbolsByClass(t, c)[k := e] else SymbolsByClass(t, c);
    assert v.Keys == w.Keys;
  }

  /** Declaring a new symbol of class `c` adds it to the class-`c` view and to no other. */
  lemma AddJoinsItsClass(t: Table, ci: bool, symbol: string, c: string, attrs: Attrs, other: string)
    requires Valid(t)
    requires Key(ci, symbol) !in t
    requires other != c
    ensures AddSymbol(t, ci, symbol, c, attrs).Ok?
    ensures var t' := AddSymbol(t, ci, symbol, c, attrs).value;
      && SymbolsByClass(t', c) == SymbolsByClass(t, c)[Key(ci, symbol) := t'[Key(ci, symbol)]]
      && SymbolsByClass(t', other) == SymbolsByClass(t, other)
  {
    var k := Key(ci, symbol);
    var e := NewEntry(k, c, attrs);
    assert AddSymbol(t, ci, symbol, c, attrs) == Ok(t[k := e]);
    assert e["type"] != VStr(other);
    ClassViewOfInsert(t, k, e, c);
    ClassViewOfInsert(t, k, e, other);
  }
}
