/** The LogoVM loader: one pass over the FUNC entries of the symbol table that records,
    for every `LABEL <name>` instruction of a function's generated code, the instruction's
    index as the `pc` of the symbol `<name>`.

    The source iterates the FUNC entries in dictionary order; here that order is the
    parameter `funcs`, a duplicate-free listing of exactly the FUNC keys. */
module Loader {
  import opened Wrappers
  import opened Text
  import opened Errors
  import opened SymTable

  /** How the loader reads one instruction. */
  datatype Instr =
    | Plain                 // does not start with `LABEL`: ignored, never validated
    | Label(name: string)   // `LABEL` ... ` ` name: split once at the first space
    | BareLabel             // starts with `LABEL` but has no space: the split fails

  /** `cmd.startswith("LABEL")` followed by `cmd.split(" ", 1)`. */
  function Classify(cmd: string): (c: Instr)
    ensures c.Plain? <==> !StartsWith(cmd, "LABEL")
    ensures c.BareLabel? <==> StartsWith(cmd, "LABEL") && ' ' !in cmd
    ensures c.Label? ==>
      var h := |cmd| - |c.name| - 1;
      && 0 <= h && cmd[h] == ' ' && ' ' !in cmd[..h] && cmd[h + 1..] == c.name
  {
    if !StartsWith(cmd, "LABEL") then Plain
    else match FirstIndex(cmd, ' ')
      case None => BareLabel
      case Some(i) => Label(cmd[i + 1..])
  }

  /** The instruction strings `enumerate(code)` visits: a list gives its elements, a string
      its one-character substrings, an integer is not iterable. */
  function Commands(symbol: string, code: Value): (r: Result<seq<string>, Error>)
    ensures r.Err? <==> code.VInt?
    ensures r.Err? ==> r.error == NotIterable(symbol)
    ensures code.VList? ==> r == Ok(code.items)
    ensures code.VStr? ==> r.Ok? && |r.value| == |code.s| && forall i :: 0 <= i < |r.value| ==> Classify(r.value[i]).Plain?
  {
    match code
    case VList(items) => Ok(items)
    case VStr(s) => Ok(seq(|s|, i requires 0 <= i < |s| => [s[i]]))
    case VInt(_) => Err(NotIterable(symbol))
  }

  /** The code of FUNC symbol `f` in table `t`: `data.get("code")`, failing when absent. */
  function CodeOf(t: Table, f: string): (r: Result<seq<string>, Error>)
    requires f in t
    ensures "code" !in t[f] ==> r == Err(UndefinedReference("FUNCTION", f))
    ensures "code" in t[f] ==> r == Commands(f, t[f]["code"])
  {
    if "code" !in t[f] then Err(UndefinedReference("FUNCTION", f))
    else Commands(f, t[f]["code"])
  }

  /** `funcs` lists every FUNC key of a well-formed table exactly once. */
  ghost predicate FuncOrder(t: Table, funcs: seq<string>) {
    && Valid(t)
    && (forall i, j :: 0 <= i < j < |funcs| ==> funcs[i] != funcs[j])
    && (forall i :: 0 <= i < |funcs| ==> funcs[i] in SymbolsByClass(t, "FUNC"))
    && (forall k :: k in SymbolsByClass(t, "FUNC") ==> k in funcs)
  }

  /** The table reached and the error raised, if any. Writes made before an error stay. */
  datatype Outcome = Outcome(table: Table, error: Option<Error>)

  /** The inner loop from index `addr` on: it adds and removes no key. */
  function RunCode(t: Table, ci: bool, cmds: seq<string>, addr: nat): (o: Outcome)
    requires addr <= |cmds|
    ensures o.table.Keys == t.Keys
    decreases |cmds| - addr
  {
    if addr == |cmds| then Outcome(t, None)
    else match Classify(cmds[addr])
      case Plain => RunCode(t, ci, cmds, addr + 1)
      case BareLabel => Outcome(t, Some(MalformedLabel(cmds[addr])))
      case Label(name) =>
        match SetSymbol(t, ci, name, map["pc" := VInt(addr)])
        case Err(e) => Outcome(t, Some(e))
        case Ok(t1) => RunCode(t1, ci, cmds, addr + 1)
  }

  /** The outer loop over the remaining FUNC symbols; code is read from the table the pass
      started from (the pass writes only `pc`, see `LoadOnlyWritesPc`). It keeps the key set,
      and besides the inner loop's errors fails only on a function without iterable code. */
  function RunFuncs(start: Table, t: Table, ci: bool, funcs: seq<string>): (o: Outcome)
    requires forall i :: 0 <= i < |funcs| ==> funcs[i] in start
    ensures o.table.Keys == t.Keys
    ensures o.error.Some? ==> LoaderError(o.error.value)
    decreases |funcs|
  {
    if |funcs| == 0 then Outcome(t, None)
    else match CodeOf(start, funcs[0])
      case Err(e) => Outcome(t, Some(e))
      case Ok(cmds) =>
        RunCodeErrors(t, ci, cmds, 0);
        var o := RunCode(t, ci, cmds, 0);
        if o.error.Some? then o else RunFuncs(start, o.table, ci, funcs[1..])
  }

  /** The errors `loader()` raises, directly or through `set_symbol`. */
  predicate LoaderError(e: Error) {
    e.UndefinedReference? || e.NotIterable? || e.MalformedLabel? || e.UnknownSymbol?
  }

  /** `loader()` over the table `t`: it keeps the key set and raises only its own errors. */
  function Load(t: Table, ci: bool, funcs: seq<string>): (o: Outcome)
    requires FuncOrder(t, funcs)
    ensures o.table.Keys == t.Keys
    ensures o.error.Some? ==> LoaderError(o.error.value)
  {
    RunFuncs(t, t, ci, funcs)
  }

  /** `loader()` as the source writes it: a loop over the FUNC symbols and, inside it, a
      loop over the instructions with their indices. */
  method Loader(t: Table, ci: bool, funcs: seq<string>) returns (out: Outcome)
    requires FuncOrder(t, funcs)
    ensures out == Load(t, ci, funcs)
  {
    var cur := t;
    var j := 0;
    while j < |funcs|
      invariant j <= |funcs|
      invariant RunFuncs(t, cur, ci, funcs[j..]) == Load(t, ci, funcs)
    {
      var f := funcs[j];
      assert funcs[j..][0] == f && funcs[j..][1..] == funcs[j + 1..];
      if "code" !in t[f] {
        return Outcome(cur, Some(UndefinedReference("FUNCTION", f)));
      }
      var code := Commands(f, t[f]["code"]);
      if code.Err? {
        return Outcome(cur, Some(code.error));
      }
      var o := ScanCode(cur, ci, code.value);
      if o.error.Some? {
        return o;
      }
      cur := o.table;
      j := j + 1;
    }
    return Outcome(cur, None);
  }

  /** The inner loop of `loader()`: the instructions of one function with their indices. */
  method ScanCode(t: Table, ci: bool, cmds: seq<string>) returns (out: Outcome)
    ensures out == RunCode(t, ci, cmds, 0)
  {
    var addr := 0;
    var cur := t;
    while addr < |cmds|
      invariant addr <= |cmds|
      invariant RunCode(cur, ci, cmds, addr) == RunCode(t, ci, cmds, 0)
    {
      var c := Classify(cmds[addr]);
      RunCodeStep(cur, ci, cmds, addr);
      if c.BareLabel? {
        return Outcome(cur, Some(MalformedLabel(cmds[addr])));
      } else if c.Label? {
        var r := SetSymbol(cur, ci, c.name, map["pc" := VInt(addr)]);
        if r.Err? {
          return Outcome(cur, Some(r.error));
        }
        cur := r.value;
      }
      addr := addr + 1;
    }
    return Outcome(cur, None);
  }

  /** One instruction of the inner loop: an ignored one moves on, a `LABEL` without a space
      stops the loop, and a label moves on from the updated table or stops with the error
      of `set_symbol`. */
  lemma RunCodeStep(t: Table, ci: bool, cmds: seq<string>, addr: nat)
    requires addr < |cmds|
    ensures Classify(cmds[addr]).Plain? ==> RunCode(t, ci, cmds, addr) == RunCode(t, ci, cmds, addr + 1)
    ensures Classify(cmds[addr]).BareLabel? ==>
      RunCode(t, ci, cmds, addr) == Outcome(t, Some(MalformedLabel(cmds[addr])))
    ensures var c := Classify(cmds[addr]);
      c.Label? ==>
        var r := SetSymbol(t, ci, c.name, map["pc" := VInt(addr)]);
        RunCode(t, ci, cmds, addr)
        == if r.Ok? then RunCode(r.value, ci, cmds, addr + 1) else Outcome(t, Some(r.error))
  {
  }

  // ---------------------------------------------------------------------------
  // A declarative reading of the pass

  /** One `set_symbol(name, pc=addr)` call. */
  datatype PcWrite = PcWrite(target: string, addr: nat)

  /** The writes the instructions from `addr` on ask for, in scan order. */
  function LabelWrites(cmds: seq<string>, addr: nat): seq<PcWrite>
    requires addr <= |cmds|
    decreases |cmds| - addr
  {
    if addr == |cmds| then []
    else match Classify(cmds[addr])
      case Label(name) => [PcWrite(name, addr)] + LabelWrites(cmds, addr + 1)
      case _ => LabelWrites(cmds, addr + 1)
  }

  /** Every instruction from `addr` on is either plain or a well-formed label whose symbol
      is one of `keys`. */
  ghost predicate LabelsResolve(keys: set<string>, ci: bool, cmds: seq<string>, addr: nat) {
    forall a :: addr <= a < |cmds| ==>
      && !Classify(cmds[a]).BareLabel?
      && (Classify(cmds[a]).Label? ==> Key(ci, Classify(cmds[a]).name) in keys)
  }

  /** Every listed function has iterable code whose labels all resolve. */
  ghost predicate Loadable(t: Table, ci: bool, funcs: seq<string>)
    requires forall i :: 0 <= i < |funcs| ==> funcs[i] in t
  {
    forall i :: 0 <= i < |funcs| ==>
      CodeOf(t, funcs[i]).Ok? && LabelsResolve(t.Keys, ci, CodeOf(t, funcs[i]).value, 0)
  }

  /** All writes of the pass, function after function. */
  function AllWrites(t: Table, funcs: seq<string>): seq<PcWrite>
    requires forall i :: 0 <= i < |funcs| ==> funcs[i] in t
    decreases |funcs|
  {
    if |funcs| == 0 then []
    else
      (match CodeOf(t, funcs[0])
       case Ok(cmds) => LabelWrites(cmds, 0)
       case Err(_) => [])
      + AllWrites(t, funcs[1..])
  }

  /** The entry `e` with its `pc` set to `addr`, or unchanged when there is no write. */
  function WithPc(e: Attrs, addr: Option<nat>): Attrs {
    match addr
    case None => e
    case Some(a) => e["pc" := VInt(a)]
  }

  /** Performing the writes in order, each on an existing key. */
  function ApplyPcs(t: Table, ci: bool, ws: seq<PcWrite>): Table
    decreases |ws|
  {
    if |ws| == 0 then t
    else
      var k := Key(ci, ws[0].target);
      var t1 := if k in t then t[k := WithPc(t[k], Some(ws[0].addr))] else t;
      ApplyPcs(t1, ci, ws[1..])
  }

  /** The address of the last write to key `k`, if any. */
  function LastPc(ci: bool, ws: seq<PcWrite>, k: string): Option<nat>
    decreases |ws|
  {
    if |ws| == 0 then None
    else
      var later := LastPc(ci, ws[1..], k);
      if later.Some? then later
      else if Key(ci, ws[0].target) == k then Some(ws[0].addr)
      else None
  }

  /** Applying writes sets each written key's `pc` to its last write and leaves every
      other entry, and the key set, as it was. */
  lemma {:induction false} ApplyPcsByLastPc(t: Table, ci: bool, ws: seq<PcWrite>)
    ensures ApplyPcs(t, ci, ws).Keys == t.Keys
    ensures forall k :: k in t ==> ApplyPcs(t, ci, ws)[k] == WithPc(t[k], LastPc(ci, ws, k))
    decreases |ws|
  {
    if |ws| > 0 {
      var k0 := Key(ci, ws[0].target);
      var t1 := if k0 in t then t[k0 := WithPc(t[k0], Some(ws[0].addr))] else t;
      ApplyPcsByLastPc(t1, ci, ws[1..]);
      forall k | k in t ensures ApplyPcs(t, ci, ws)[k] == WithPc(t[k], LastPc(ci, ws, k)) {
        var later := LastPc(ci, ws[1..], k);
        if later.Some? {
          assert t1[k]["pc" := VInt(later.value)] == t[k]["pc" := VInt(later.value)];
        }
      }
    }
  }

  /** No write of `ws` targets key `k`. */
  ghost predicate Unwritten(ci: bool, ws: seq<PcWrite>, k: string) {
    forall i :: 0 <= i < |ws| ==> Key(ci, ws[i].target) != k
  }

  /** `LastPc` is `None` for a key no write targets. */
  lemma {:induction false} LastPcUnwritten(ci: bool, ws: seq<PcWrite>, k: string)
    requires Unwritten(ci, ws, k)
    ensures LastPc(ci, ws, k) == None
    decreases |ws|
  {
    if |ws| > 0 {
      assert Unwritten(ci, ws[1..], k) by {
        forall j | 0 <= j < |ws[1..]| ensures Key(ci, ws[1..][j].target) != k {
          assert ws[1..][j] == ws[j + 1];
        }
      }
      LastPcUnwritten(ci, ws[1..], k);
    }
  }

  /** `LastPc` is the address of the last write to `k` in scan order. */
  lemma {:induction false} LastPcIsLastWrite(ci: bool, ws: seq<PcWrite>, k: string, i: nat)
    requires i < |ws| && Key(ci, ws[i].target) == k
    requires Unwritten(ci, ws[i + 1..], k)
    ensures LastPc(ci, ws, k) == Some(ws[i].addr)
    decreases |ws|
  {
    if i == 0 {
      assert ws[1..] == ws[i + 1..];
      LastPcUnwritten(ci, ws[1..], k);
    } else {
      assert ws[1..][i - 1] == ws[i];
      assert ws[1..][i..] == ws[i + 1..];
      LastPcIsLastWrite(ci, ws[1..], k, i - 1);
    }
  }

  lemma {:induction false} ApplyPcsAppend(t: Table, ci: bool, ws1: seq<PcWrite>, ws2: seq<PcWrite>)
    ensures ApplyPcs(t, ci, ws1 + ws2) == ApplyPcs(ApplyPcs(t, ci, ws1), ci, ws2)
    decreases |ws1|
  {
    if |ws1| == 0 {
      assert ws1 + ws2 == ws2;
    } else {
      var k := Key(ci, ws1[0].target);
      var t1 := if k in t then t[k := WithPc(t[k], Some(ws1[0].addr))] else t;
      assert (ws1 + ws2)[0] == ws1[0];
      assert (ws1 + ws2)[1..] == ws1[1..] + ws2;
      ApplyPcsAppend(t1, ci, ws1[1..], ws2);
    }
  }

  /** `set_symbol(name, pc=addr)` succeeds exactly on an existing symbol and then sets
      only that entry's `pc`. */
  lemma SetPcStep(t: Table, ci: bool, name: string, addr: nat)
    ensures var k := Key(ci, name);
      SetSymbol(t, ci, name, map["pc" := VInt(addr)])
        == if k in t then Ok(t[k := WithPc(t[k], Some(addr))]) else Err(UnknownSymbol(name))
  {
    var k := Key(ci, name);
    if k in t {
      assert t[k] + map["pc" := VInt(addr)] == WithPc(t[k], Some(addr));
    }
  }

  lemma LabelsResolveStep(keys: set<string>, ci: bool, cmds: seq<string>, addr: nat)
    requires addr < |cmds|
    ensures LabelsResolve(keys, ci, cmds, addr) <==>
      && !Classify(cmds[addr]).BareLabel?
      && (Classify(cmds[addr]).Label? ==> Key(ci, Classify(cmds[addr]).name) in keys)
      && LabelsResolve(keys, ci, cmds, addr + 1)
  {
  }

  /** The inner loop succeeds exactly when its labels resolve, and then amounts to its
      writes; it never adds or removes a key. */
  lemma {:induction false} RunCodeSpec(t: Table, ci: bool, cmds: seq<string>, addr: nat)
    requires addr <= |cmds|
    ensures RunCode(t, ci, cmds, addr).table.Keys == t.Keys
    ensures RunCode(t, ci, cmds, addr).error.None? <==> LabelsResolve(t.Keys, ci, cmds, addr)
    ensures RunCode(t, ci, cmds, addr).error.None? ==>
      RunCode(t, ci, cmds, addr).table == ApplyPcs(t, ci, LabelWrites(cmds, addr))
    decreases |cmds| - addr
  {
    if addr < |cmds| {
      LabelsResolveStep(t.Keys, ci, cmds, addr);
      match Classify(cmds[addr])
      case Plain =>
        RunCodeSpec(t, ci, cmds, addr + 1);
      case BareLabel =>
      case Label(name) =>
        var k := Key(ci, name);
        SetPcStep(t, ci, name, addr);
        if k in t {
          var t1 := t[k := WithPc(t[k], Some(addr))];
          RunCodeSpec(t1, ci, cmds, addr + 1);
          assert RunCode(t, ci, cmds, addr) == RunCode(t1, ci, cmds, addr + 1);
          var ws := LabelWrites(cmds, addr);
          assert ws == [PcWrite(name, addr)] + LabelWrites(cmds, addr + 1);
          assert ws[0] == PcWrite(name, addr) && ws[1..] == LabelWrites(cmds, addr + 1);
          assert ApplyPcs(t, ci, ws) == ApplyPcs(t1, ci, ws[1..]);
        }
    }
  }

  /** The outer loop succeeds exactly when every remaining function is loadable, and then
      amounts to all their writes. */
  lemma {:induction false} RunFuncsSpec(start: Table, t: Table, ci: bool, funcs: seq<string>)
    requires forall i :: 0 <= i < |funcs| ==> funcs[i] in start
    requires t.Keys == start.Keys
    ensures RunFuncs(start, t, ci, funcs).table.Keys == t.Keys
    ensures RunFuncs(start, t, ci, funcs).error.None? <==> Loadable(start, ci, funcs)
    ensures RunFuncs(start, t, ci, funcs).error.None? ==>
      RunFuncs(start, t, ci, funcs).table == ApplyPcs(t, ci, AllWrites(start, funcs))
    decreases |funcs|
  {
    if |funcs| > 0 {
      var f := funcs[0];
      if CodeOf(start, f).Ok? {
        var cmds := CodeOf(start, f).value;
        RunCodeSpec(t, ci, cmds, 0);
        var o := RunCode(t, ci, cmds, 0);
        if o.error.None? {
          RunFuncsSpec(start, o.table, ci, funcs[1..]);
          ApplyPcsAppend(t, ci, LabelWrites(cmds, 0), AllWrites(start, funcs[1..]));
        }
      }
      LoadableCons(start, ci, funcs);
    }
  }

  /** A list of functions is loadable exactly when its first one is and the rest are. */
  lemma LoadableCons(t: Table, ci: bool, funcs: seq<string>)
    requires |funcs| > 0 && forall i :: 0 <= i < |funcs| ==> funcs[i] in t
    ensures Loadable(t, ci, funcs) <==>
      && CodeOf(t, funcs[0]).Ok? && LabelsResolve(t.Keys, ci, CodeOf(t, funcs[0]).value, 0)
      && Loadable(t, ci, funcs[1..])
  {
    forall i | 0 <= i < |funcs[1..]| ensures funcs[1..][i] == funcs[i + 1] { }
  }

  /** The pass succeeds exactly when every FUNC symbol has iterable code and every `LABEL`
      instruction in it names an existing symbol after a space; it then amounts to performing
      all label writes in scan order. */
  lemma LoadSucceedsExactly(t: Table, ci: bool, funcs: seq<string>)
    requires FuncOrder(t, funcs)
    ensures Load(t, ci, funcs).error.None? <==> Loadable(t, ci, funcs)
    ensures Load(t, ci, funcs).error.None? ==> Load(t, ci, funcs).table == ApplyPcs(t, ci, AllWrites(t, funcs))
  {
    RunFuncsSpec(t, t, ci, funcs);
  }

  /** After a successful pass each label symbol's `pc` is the index of its last `LABEL`
      instruction in scan order; entries no label names are unchanged, and no key is added
      or removed. */
  lemma LoadResolvesLabels(t: Table, ci: bool, funcs: seq<string>)
    requires FuncOrder(t, funcs)
    requires Load(t, ci, funcs).error.None?
    ensures Load(t, ci, funcs).table.Keys == t.Keys
    ensures WritesWithin(t.Keys, ci, AllWrites(t, funcs))
    ensures var out := Load(t, ci, funcs).table; var ws := AllWrites(t, funcs);
      forall i :: 0 <= i < |ws| && (forall j :: i < j < |ws| ==> Key(ci, ws[j].target) != Key(ci, ws[i].target))
        ==> out[Key(ci, ws[i].target)] == t[Key(ci, ws[i].target)]["pc" := VInt(ws[i].addr)]
    ensures var out := Load(t, ci, funcs).table; var ws := AllWrites(t, funcs);
      forall k :: k in t && (forall i :: 0 <= i < |ws| ==> Key(ci, ws[i].target) != k) ==> out[k] == t[k]
  {
    var ws := AllWrites(t, funcs);
    var out := Load(t, ci, funcs).table;
    LoadSucceedsExactly(t, ci, funcs);
    AllWritesResolve(t, ci, funcs);
    ApplyPcsByLastPc(t, ci, ws);
    assert out == ApplyPcs(t, ci, ws);
    forall i | 0 <= i < |ws| && (forall j :: i < j < |ws| ==> Key(ci, ws[j].target) != Key(ci, ws[i].target))
      ensures out[Key(ci, ws[i].target)] == t[Key(ci, ws[i].target)]["pc" := VInt(ws[i].addr)]
    {
      var k := Key(ci, ws[i].target);
      var rest := ws[i + 1..];
      assert Unwritten(ci, rest, k) by {
        forall j | 0 <= j < |rest| ensures Key(ci, rest[j].target) != k {
          assert rest[j] == ws[i + 1 + j];
        }
      }
      LastPcIsLastWrite(ci, ws, k, i);
    }
    forall k | k in t && (forall i :: 0 <= i < |ws| ==> Key(ci, ws[i].target) != k)
      ensures out[k] == t[k]
    {
      LastPcUnwritten(ci, ws, k);
    }
  }

  /** Every write asks for a key among `keys`. */
  ghost predicate WritesWithin(keys: set<string>, ci: bool, ws: seq<PcWrite>) {
    forall i :: 0 <= i < |ws| ==> Key(ci, ws[i].target) in keys
  }

  lemma {:induction false} LabelWritesResolve(keys: set<string>, ci: bool, cmds: seq<string>, addr: nat)
    requires addr <= |cmds|
    requires LabelsResolve(keys, ci, cmds, addr)
    ensures WritesWithin(keys, ci, LabelWrites(cmds, addr))
    decreases |cmds| - addr
  {
    if addr < |cmds| {
      LabelWritesResolve(keys, ci, cmds, addr + 1);
    }
  }

  lemma {:induction false} AllWritesResolve(t: Table, ci: bool, funcs: seq<string>)
    requires forall i :: 0 <= i < |funcs| ==> funcs[i] in t
    requires Loadable(t, ci, funcs)
    ensures WritesWithin(t.Keys, ci, AllWrites(t, funcs))
    decreases |funcs|
  {
    if |funcs| > 0 {
      LabelWritesResolve(t.Keys, ci, CodeOf(t, funcs[0]).value, 0);
      assert Loadable(t, ci, funcs[1..]) by {
        forall i | 0 <= i < |funcs[1..]| ensures funcs[1..][i] == funcs[i + 1] { }
      }
      AllWritesResolve(t, ci, funcs[1..]);
    }
  }

  // ---------------------------------------------------------------------------
  // Framing, errors, idempotence

  /** Two tables have the same keys and differ at most in `pc` attributes. */
  ghost predicate AgreeOffPc(t: Table, t': Table) {
    t'.Keys == t.Keys && forall k :: k in t ==> t'[k] - {"pc"} == t[k] - {"pc"}
  }

  lemma AgreeOffPcTransitive(t1: Table, t2: Table, t3: Table)
    requires AgreeOffPc(t1, t2) && AgreeOffPc(t2, t3)
    ensures AgreeOffPc(t1, t3)
  {
  }

  lemma {:induction false} RunCodeOnlyWritesPc(t: Table, ci: bool, cmds: seq<string>, addr: nat)
    requires addr <= |cmds|
    ensures AgreeOffPc(t, RunCode(t, ci, cmds, addr).table)
    decreases |cmds| - addr
  {
    if addr < |cmds| {
      match Classify(cmds[addr])
      case Plain =>
        RunCodeOnlyWritesPc(t, ci, cmds, addr + 1);
      case BareLabel =>
      case Label(name) =>
        var k := Key(ci, name);
        SetPcStep(t, ci, name, addr);
        if k in t {
          var t1 := t[k := WithPc(t[k], Some(addr))];
          assert t1[k] - {"pc"} == t[k] - {"pc"};
          assert AgreeOffPc(t, t1);
          RunCodeOnlyWritesPc(t1, ci, cmds, addr + 1);
          AgreeOffPcTransitive(t, t1, RunCode(t, ci, cmds, addr).table);
        }
    }
  }

  lemma {:induction false} RunFuncsOnlyWritesPc(start: Table, t: Table, ci: bool, funcs: seq<string>)
    requires forall i :: 0 <= i < |funcs| ==> funcs[i] in start
    ensures AgreeOffPc(t, RunFuncs(start, t, ci, funcs).table)
    decreases |funcs|
  {
    if |funcs| > 0 && CodeOf(start, funcs[0]).Ok? {
      var o := RunCode(t, ci, CodeOf(start, funcs[0]).value, 0);
      RunCodeOnlyWritesPc(t, ci, CodeOf(start, funcs[0]).value, 0);
      if o.error.None? {
        RunFuncsOnlyWritesPc(start, o.table, ci, funcs[1..]);
        AgreeOffPcTransitive(t, o.table, RunFuncs(start, t, ci, funcs).table);
      }
    }
  }

  /** Whether it succeeds or fails, the pass adds and removes no key and changes no
      attribute other than `pc`; in particular no `code`, `type`, `name` or `lineno`. */
  lemma LoadOnlyWritesPc(t: Table, ci: bool, funcs: seq<string>)
    requires FuncOrder(t, funcs)
    ensures AgreeOffPc(t, Load(t, ci, funcs).table)
  {
    RunFuncsOnlyWritesPc(t, t, ci, funcs);
  }

  /** The inner loop fails only on a `LABEL` without a space or on a label naming no symbol. */
  lemma {:induction false} RunCodeErrors(t: Table, ci: bool, cmds: seq<string>, addr: nat)
    requires addr <= |cmds|
    ensures var e := RunCode(t, ci, cmds, addr).error;
      e.Some? ==> e.value.MalformedLabel? || e.value.UnknownSymbol?
    decreases |cmds| - addr
  {
    if addr < |cmds| {
      match Classify(cmds[addr])
      case Plain =>
        RunCodeErrors(t, ci, cmds, addr + 1);
      case BareLabel =>
      case Label(name) =>
        var k := Key(ci, name);
        SetPcStep(t, ci, name, addr);
        if k in t {
          RunCodeErrors(t[k := WithPc(t[k], Some(addr))], ci, cmds, addr + 1);
        }
    }
  }

  lemma {:induction false} RunFuncsStopsAtUndefined(start: Table, t: Table, ci: bool, funcs: seq<string>, f: string)
      returns (j: nat)
    requires forall i :: 0 <= i < |funcs| ==> funcs[i] in start
    requires t.Keys == start.Keys
    requires RunFuncs(start, t, ci, funcs).error == Some(UndefinedReference("FUNCTION", f))
    ensures j < |funcs| && funcs[j] == f && "code" !in start[f]
    ensures Loadable(start, ci, funcs[..j])
    ensures RunFuncs(start, t, ci, funcs).table == ApplyPcs(t, ci, AllWrites(start, funcs[..j]))
    decreases |funcs|
  {
    var f0 := funcs[0];
    if CodeOf(start, f0).Err? {
      j := 0;
      assert funcs[..0] == [];
    } else {
      var cmds := CodeOf(start, f0).value;
      var o := RunCode(t, ci, cmds, 0);
      RunCodeErrors(t, ci, cmds, 0);
      RunCodeSpec(t, ci, cmds, 0);
      var j' := RunFuncsStopsAtUndefined(start, o.table, ci, funcs[1..], f);
      j := j' + 1;
      var pre := funcs[..j];
      assert pre[0] == f0 && pre[1..] == funcs[1..][..j'];
      LoadableCons(start, ci, pre);
      ApplyPcsAppend(t, ci, LabelWrites(cmds, 0), AllWrites(start, funcs[1..][..j']));
    }
  }

  /** A FUNC symbol without `code` stops the pass with `UndefinedReference`; the writes made
      for the functions scanned before it (all of which were loadable) are kept. */
  lemma LoadStopsAtUndefined(t: Table, ci: bool, funcs: seq<string>, f: string) returns (j: nat)
    requires FuncOrder(t, funcs)
    requires Load(t, ci, funcs).error == Some(UndefinedReference("FUNCTION", f))
    ensures j < |funcs| && funcs[j] == f && "code" !in t[f]
    ensures Loadable(t, ci, funcs[..j])
    ensures Load(t, ci, funcs).table == ApplyPcs(t, ci, AllWrites(t, funcs[..j]))
  {
    j := RunFuncsStopsAtUndefined(t, t, ci, funcs, f);
  }

  lemma {:induction false} AllWritesAgreeOffPc(t: Table, t': Table, funcs: seq<string>)
    requires AgreeOffPc(t, t')
    requires forall i :: 0 <= i < |funcs| ==> funcs[i] in t
    ensures forall i :: 0 <= i < |funcs| ==> CodeOf(t', funcs[i]) == CodeOf(t, funcs[i])
    ensures AllWrites(t', funcs) == AllWrites(t, funcs)
    decreases |funcs|
  {
    forall i | 0 <= i < |funcs| ensures CodeOf(t', funcs[i]) == CodeOf(t, funcs[i]) {
      var f := funcs[i];
      assert ("code" in t'[f] <==> "code" in t'[f] - {"pc"}) && ("code" in t[f] <==> "code" in t[f] - {"pc"});
      if "code" in t[f] {
        assert t'[f]["code"] == (t'[f] - {"pc"})["code"];
      }
    }
    if |funcs| > 0 {
      AllWritesAgreeOffPc(t, t', funcs[1..]);
    }
  }

  lemma AgreeOffPcKeepsFuncOrder(t: Table, t': Table, funcs: seq<string>)
    requires AgreeOffPc(t, t')
    requires FuncOrder(t, funcs)
    ensures FuncOrder(t', funcs)
  {
    forall k | k in t ensures "name" in t'[k] && "type" in t'[k] && t'[k]["type"] == t[k]["type"] {
      assert "type" in t[k] - {"pc"} && "name" in t[k] - {"pc"};
      assert t'[k]["type"] == (t'[k] - {"pc"})["type"];
    }
    assert Valid(t');
    assert SymbolsByClass(t', "FUNC").Keys == SymbolsByClass(t, "FUNC").Keys;
  }

  /** Performing the same writes a second time changes nothing. */
  lemma ReapplyIsIdentity(t: Table, ci: bool, ws: seq<PcWrite>)
    ensures ApplyPcs(ApplyPcs(t, ci, ws), ci, ws) == ApplyPcs(t, ci, ws)
  {
    var t' := ApplyPcs(t, ci, ws);
    ApplyPcsByLastPc(t, ci, ws);
    ApplyPcsByLastPc(t', ci, ws);
    forall k | k in t' ensures ApplyPcs(t', ci, ws)[k] == t'[k] {
      var last := LastPc(ci, ws, k);
      if last.Some? {
        assert t'[k] == t[k]["pc" := VInt(last.value)];
      }
    }
  }

  /** Running the loader again on a table it has already loaded succeeds and changes
      nothing: the FUNC listing, the code and the label targets are all the same, and every
      `pc` it would write already holds that value. */
  lemma LoadIdempotent(t: Table, ci: bool, funcs: seq<string>)
    requires FuncOrder(t, funcs)
    requires Load(t, ci, funcs).error.None?
    ensures FuncOrder(Load(t, ci, funcs).table, funcs)
    ensures Load(Load(t, ci, funcs).table, ci, funcs) == Load(t, ci, funcs)
  {
    var t' := Load(t, ci, funcs).table;
    var ws := AllWrites(t, funcs);
    LoadSucceedsExactly(t, ci, funcs);
    LoadOnlyWritesPc(t, ci, funcs);
    AgreeOffPcKeepsFuncOrder(t, t', funcs);
    AllWritesAgreeOffPc(t, t', funcs);
    assert Loadable(t', ci, funcs);
    LoadSucceedsExactly(t', ci, funcs);
    ReapplyIsIdentity(t, ci, ws);
  }

  /** The instruction `"LABEL " + name` is read back as a label for exactly `name`, whatever
      `name` contains (spaces included): the split happens at the first space only. */
  lemma ClassifyLabelRoundTrip(name: string)
    ensures Classify("LABEL " + name) == Label(name)
  {
    var cmd := "LABEL " + name;
    assert cmd[..5] == "LABEL" && cmd[5] == ' ';
    assert ' ' !in cmd[..5];
    assert FirstIndex(cmd, ' ') == Some(5);
    assert cmd[6..] == name;
  }

  /** A listing of a table with one FUNC symbol. */
  lemma SingleFuncOrder(t: Table, f: string)
    requires Valid(t) && f in t && t[f]["type"] == VStr("FUNC")
    requires forall k :: k in t && k != f ==> t[k]["type"] != VStr("FUNC")
    ensures FuncOrder(t, [f])
  {
  }

  /** A function `MAIN` with code `LABEL L1`, `PUSH 1`, `LABEL L2`, and two label symbols. */
  function ExampleTable(): Table {
    map["MAIN" := map["name" := VStr("MAIN"), "type" := VStr("FUNC"),
                      "code" := VList(["LABEL L1", "PUSH 1", "LABEL L2"])],
        "L1" := map["name" := VStr("L1"), "type" := VStr("LABEL")],
        "L2" := map["name" := VStr("L2"), "type" := VStr("LABEL")]]
  }

  lemma ExampleOrder()
    ensures FuncOrder(ExampleTable(), ["MAIN"])
    ensures FuncOrder(ExampleTable()["MAIN" := ExampleTable()["MAIN"] - {"code"}], ["MAIN"])
  {
    var t := ExampleTable();
    assert VStr("LABEL") != VStr("FUNC") by { assert "LABEL"[0] != "FUNC"[0]; }
    assert "L1" != "MAIN" && "L2" != "MAIN" by { assert |"L1"| != |"MAIN"|; }
    SingleFuncOrder(t, "MAIN");
    SingleFuncOrder(t["MAIN" := t["MAIN"] - {"code"}], "MAIN");
  }

  /** The code of `MAIN` in the example table. */
  function ExampleCode(): seq<string> {
    ["LABEL L1", "PUSH 1", "LABEL L2"]
  }

  /** The example table once `L1` has pc 0. */
  function ExampleAfterL1(): Table {
    ExampleTable()["L1" := ExampleTable()["L1"]["pc" := VInt(0)]]
  }

  /** The example table once `L1` has pc 0 and `L2` pc 2. */
  function ExampleAfterL2(): Table {
    ExampleAfterL1()["L2" := ExampleTable()["L2"]["pc" := VInt(2)]]
  }

  lemma ExampleFirstLabel()
    ensures RunCode(ExampleTable(), false, ExampleCode(), 0) == RunCode(ExampleAfterL1(), false, ExampleCode(), 1)
  {
    var t := ExampleTable();
    ClassifyLabelRoundTrip("L1");
    assert ExampleCode()[0] == "LABEL " + "L1";
    SetPcStep(t, false, "L1", 0);
  }

  lemma ExamplePlain()
    ensures RunCode(ExampleAfterL1(), false, ExampleCode(), 1) == RunCode(ExampleAfterL1(), false, ExampleCode(), 2)
  {
    var cmd := ExampleCode()[1];
    assert cmd[..5][0] != "LABEL"[0];
    assert Classify(cmd) == Plain;
  }

  lemma ExampleSecondLabel()
    ensures RunCode(ExampleAfterL1(), false, ExampleCode(), 2) == Outcome(ExampleAfterL2(), None)
  {
    var t1 := ExampleAfterL1();
    ClassifyLabelRoundTrip("L2");
    assert ExampleCode()[2] == "LABEL " + "L2";
    SetPcStep(t1, false, "L2", 2);
    assert t1["L2"] == ExampleTable()["L2"];
  }

  /** Loading the example table gives `L1` the pc 0 and `L2` the pc 2 and changes nothing
      else. */
  lemma LabelExample()
    ensures FuncOrder(ExampleTable(), ["MAIN"])
    ensures var t := ExampleTable();
      Load(t, false, ["MAIN"])
        == Outcome(t["L1" := t["L1"]["pc" := VInt(0)]]["L2" := t["L2"]["pc" := VInt(2)]], None)
  {
    ExampleOrder();
    var t := ExampleTable();
    assert CodeOf(t, "MAIN") == Ok(ExampleCode());
    ExampleFirstLabel();
    ExamplePlain();
    ExampleSecondLabel();
    assert RunCode(t, false, ExampleCode(), 0) == Outcome(ExampleAfterL2(), None);
  }

  /** Without its code, `MAIN` is an undefined reference and the table is left as it was. */
  lemma UndefinedExample()
    ensures var t := ExampleTable()["MAIN" := ExampleTable()["MAIN"] - {"code"}];
      FuncOrder(t, ["MAIN"]) && Load(t, false, ["MAIN"]) == Outcome(t, Some(UndefinedReference("FUNCTION", "MAIN")))
  {
    ExampleOrder();
  }
}
