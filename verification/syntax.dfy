/** The values the parser's semantic actions build.

    The actions run inside PLY's LALR driver, which is not modelled: what is modelled is the
    value each action computes from the values of its right-hand side. Those values are
    Python objects, so they are modelled as such: `None`, ints, strings, tuples, lists, and
    the two dictionaries `new_node` and `new_leaf` return. A typed syntax tree gives the
    actions a partner: encoding a tree with the actions and decoding the result gives the
    tree back, and every value that decodes is the encoding of its tree, so the dictionaries
    the actions build lose nothing and mean one thing. */
module Syntax {
  import opened Wrappers

  /** A Python value an action can build. `PyNode(name, children)` is the dictionary
      `{"name": name, "children": children}` of `new_node`; `PyLeaf(name, value)` is the
      dictionary `{"name": name, "value": value}` of `new_leaf`, whose second entry holds
      the tuple of the remaining arguments. */
  datatype PyVal =
    | PyNone
    | PyInt(i: int)
    | PyStr(s: string)
    | PyTuple(elems: seq<PyVal>)
    | PyList(items: seq<PyVal>)
    | PyNode(name: string, children: seq<PyVal>)
    | PyLeaf(leafName: string, value: seq<PyVal>)

  // ---------------------------------------------------------------------------
  // The actions

  /** The lists `statements` and `func_params` build. */
  predicate IsListValue(v: PyVal) { v.PyNone? || v.PyList? }

  /** `statements : statement statements` and `func_params : func_param func_params`:
      `[head]`, extended by the rest when the rest is not `None`. The empty production sets
      nothing, so its value is `None`. */
  function ConsList(head: PyVal, rest: PyVal): (r: PyVal)
    requires IsListValue(rest)
    ensures r.PyList? && |r.items| > 0 && r.items[0] == head
    ensures rest.PyNone? ==> r.items == [head]
    ensures rest.PyList? ==> r.items[1..] == rest.items
  {
    if rest.PyNone? then PyList([head]) else PyList([head] + rest.items)
  }

  /** The value of a right-recursive list rule after reducing `items` in order: the empty
      production at the end, then one `ConsList` per item from the last to the first. It is
      `None` for no items and otherwise the list of the items in source order, never an
      empty list. */
  function BuildList(items: seq<PyVal>): (r: PyVal)
    ensures |items| == 0 ==> r == PyNone
    ensures |items| > 0 ==> r == PyList(items)
  {
    if |items| == 0 then PyNone
    else
      assert [items[0]] + items[1..] == items;
      ConsList(items[0], BuildList(items[1..]))
  }

  /** `p_program`: the node reads back as a program exactly when its list reads back as
      statements. */
  function ProgramNode(stmts: PyVal): (r: PyVal)
    ensures DecodeProgram(r) == DecodeStmts(stmts)
  {
    PyNode("Program", [stmts])
  }

  /** `p_statement`: every kind of statement is wrapped in a `Statement` leaf, which reads
      back as whatever statement its body reads back as. */
  function StatementLeaf(body: PyVal): (r: PyVal)
    ensures DecodeStmt(r) == DecodeStmtBody(body)
  {
    PyLeaf("Statement", [body])
  }

  /** `p_call_func`: reads back as a call of `name` exactly when the parameters read back. */
  function CallLeaf(name: string, params: PyVal): (r: PyVal)
    ensures DecodeStmtBody(r).Some? <==> DecodeParams(params).Some?
    ensures DecodeStmtBody(r).Some? ==> DecodeStmtBody(r).value == Call(name, DecodeParams(params).value)
  {
    PyLeaf("Call function", [PyStr(name), params])
  }

  /** `p_declare_func`: the value of the `TO` token first, then the name, the parameters
      and the body; reads back as a declaration exactly when parameters and body do. */
  function DeclareLeaf(keyword: string, name: string, params: PyVal, body: PyVal): (r: PyVal)
    ensures DecodeStmtBody(r).Some? <==> DecodeParams(params).Some? && DecodeStmts(body).Some?
    ensures DecodeStmtBody(r).Some? ==>
      DecodeStmtBody(r).value == Declare(keyword, name, DecodeParams(params).value, DecodeStmts(body).value)
  {
    PyLeaf("Declare function", [PyStr(keyword), PyStr(name), params, body])
  }

  /** `p_if`, `p_if_else` and `p_while`: the condition is an `ID` token's value; each reads
      back as its statement exactly when its bodies read back. */
  function IfLeaf(cond: string, body: PyVal): (r: PyVal)
    ensures DecodeStmtBody(r).Some? <==> DecodeStmts(body).Some?
    ensures DecodeStmtBody(r).Some? ==> DecodeStmtBody(r).value == IfThen(cond, DecodeStmts(body).value)
  {
    PyLeaf("IF", [PyStr(cond), body])
  }

  function IfElseLeaf(cond: string, thenBody: PyVal, elseBody: PyVal): (r: PyVal)
    ensures DecodeStmtBody(r).Some? <==> DecodeStmts(thenBody).Some? && DecodeStmts(elseBody).Some?
    ensures DecodeStmtBody(r).Some? ==>
      DecodeStmtBody(r).value == IfElse(cond, DecodeStmts(thenBody).value, DecodeStmts(elseBody).value)
  {
    PyLeaf("IF ELSE", [PyStr(cond), thenBody, elseBody])
  }

  function WhileLeaf(cond: string, body: PyVal): (r: PyVal)
    ensures DecodeStmtBody(r).Some? <==> DecodeStmts(body).Some?
    ensures DecodeStmtBody(r).Some? ==> DecodeStmtBody(r).value == While(cond, DecodeStmts(body).value)
  {
    PyLeaf("WHILE", [PyStr(cond), body])
  }

  /** `p_number` and `p_id`: wrapped in a `Parameter` tuple, a number reads back as a
      literal parameter when it is not negative, and a name always as a named one. */
  function NumberTuple(n: int): (r: PyVal)
    ensures DecodeParam(ParameterTuple(r)) == if n >= 0 then Some(Literal(n)) else None
  {
    PyTuple([PyStr("number"), PyInt(n)])
  }

  function IdentTuple(name: string): (r: PyVal)
    ensures DecodeParam(ParameterTuple(r)) == Some(Named(name))
  {
    PyTuple([PyStr("Identifier"), PyStr(name)])
  }

  /** `p_func_param`: both productions wrap their one value in a `Parameter` tuple, which
      reads back only when that value is a name or number tuple. */
  function ParameterTuple(inner: PyVal): (r: PyVal)
    ensures DecodeParam(r).Some? ==>
      inner == match DecodeParam(r).value
               case Named(x) => PyTuple([PyStr("Identifier"), PyStr(x)])
               case Literal(n) => PyTuple([PyStr("number"), PyInt(n)])
  {
    PyTuple([PyStr("Parameter"), inner])
  }

  /** `p_expression` and `p_term`: the operator first, then the operands; reads back as a
      binary expression exactly when both operands read back. */
  function BinaryLeaf(op: string, left: PyVal, right: PyVal): (r: PyVal)
    ensures DecodeExpr(r).Some? <==> DecodeExpr(left).Some? && DecodeExpr(right).Some?
    ensures DecodeExpr(r).Some? ==>
      DecodeExpr(r).value == Binary(op, DecodeExpr(left).value, DecodeExpr(right).value)
  {
    PyLeaf("MATH EXPRESSION", [PyStr(op), left, right])
  }

  /** `p_factor_unary` and `p_factor_grouped`: each reads back exactly when its operand
      does. */
  function UnaryLeaf(op: string, arg: PyVal): (r: PyVal)
    ensures DecodeExpr(r).Some? <==> DecodeExpr(arg).Some?
    ensures DecodeExpr(r).Some? ==> DecodeExpr(r).value == Unary(op, DecodeExpr(arg).value)
  {
    PyLeaf("MATH EXPRESSION", [PyStr(op), arg])
  }

  function GroupLeaf(inner: PyVal): (r: PyVal)
    ensures DecodeExpr(r).Some? <==> DecodeExpr(inner).Some?
    ensures DecodeExpr(r).Some? ==> DecodeExpr(r).value == Group(DecodeExpr(inner).value)
  {
    PyLeaf("MATH EXPRESSION", [inner])
  }

  /** `p_factor_number`: reads back as that number when it is not negative. */
  function NumberLeaf(n: int): (r: PyVal)
    ensures DecodeExpr(r) == if n >= 0 then Some(Num(n)) else None
  {
    PyLeaf("Number", [PyInt(n)])
  }

  /** `p_expression_term` and `p_term_factor`: a lone operand passes through and reads back
      as the expression it already was. */
  function PassThrough(v: PyVal): (r: PyVal)
    ensures DecodeExpr(r) == DecodeExpr(v)
  {
    v
  }

  // ---------------------------------------------------------------------------
  // The typed tree and its encoding by the actions

  /** A parameter: `:name` or a number. */
  datatype Param = Named(name: string) | Literal(n: nat)

  /** An arithmetic expression. The operators are token values (`+`, `-`, `*`, `/`). */
  datatype Expr =
    | Num(n: nat)
    | Unary(op: string, arg: Expr)
    | Group(inner: Expr)
    | Binary(op: string, left: Expr, right: Expr)

  datatype Stmt =
    | Declare(keyword: string, name: string, params: seq<Param>, body: seq<Stmt>)
    | Call(callee: string, args: seq<Param>)
    | IfThen(cond: string, thenBody: seq<Stmt>)
    | IfElse(cond: string, ifBody: seq<Stmt>, elseBody: seq<Stmt>)
    | While(test: string, loopBody: seq<Stmt>)
    | ExprStmt(e: Expr)

  function EncodeParam(p: Param): PyVal {
    match p
    case Named(name) => ParameterTuple(IdentTuple(name))
    case Literal(n) => ParameterTuple(NumberTuple(n))
  }

  function EncodeParams(ps: seq<Param>): (r: PyVal)
    ensures IsListValue(r)
  {
    if |ps| == 0 then PyNone else ConsList(EncodeParam(ps[0]), EncodeParams(ps[1..]))
  }

  function EncodeExpr(e: Expr): PyVal {
    match e
    case Num(n) => NumberLeaf(n)
    case Unary(op, arg) => UnaryLeaf(op, EncodeExpr(arg))
    case Group(inner) => GroupLeaf(EncodeExpr(inner))
    case Binary(op, l, r) => BinaryLeaf(op, EncodeExpr(l), EncodeExpr(r))
  }

  function EncodeStmt(s: Stmt): PyVal
    decreases s, 1
  {
    StatementLeaf(
      match s
      case Declare(kw, name, ps, body) => DeclareLeaf(kw, name, EncodeParams(ps), EncodeStmts(body))
      case Call(name, ps) => CallLeaf(name, EncodeParams(ps))
      case IfThen(c, body) => IfLeaf(c, EncodeStmts(body))
      case IfElse(c, b1, b2) => IfElseLeaf(c, EncodeStmts(b1), EncodeStmts(b2))
      case While(c, body) => WhileLeaf(c, EncodeStmts(body))
      case ExprStmt(e) => PassThrough(EncodeExpr(e)))
  }

  function EncodeStmts(ss: seq<Stmt>): (r: PyVal)
    ensures IsListValue(r)
    decreases ss, 0
  {
    if |ss| == 0 then PyNone else ConsList(EncodeStmt(ss[0]), EncodeStmts(ss[1..]))
  }

  function EncodeProgram(ss: seq<Stmt>): PyVal { ProgramNode(EncodeStmts(ss)) }

  // ---------------------------------------------------------------------------
  // Reading a built value back

  function DecodeParam(v: PyVal): Option<Param> {
    if v.PyTuple? && |v.elems| == 2 && v.elems[0] == PyStr("Parameter") && v.elems[1].PyTuple? then
      var inner := v.elems[1].elems;
      if |inner| == 2 && inner[0] == PyStr("Identifier") && inner[1].PyStr? then
        Some(Named(inner[1].s))
      else if |inner| == 2 && inner[0] == PyStr("number") && inner[1].PyInt? && inner[1].i >= 0 then
        Some(Literal(inner[1].i))
      else None
    else None
  }

  function DecodeParamItems(items: seq<PyVal>): Option<seq<Param>> {
    if |items| == 0 then Some([])
    else
      match (DecodeParam(items[0]), DecodeParamItems(items[1..]))
      case (Some(p), Some(ps)) => Some([p] + ps)
      case _ => None
  }

  /** `None` is the empty list; a list value must hold at least one parameter. */
  function DecodeParams(v: PyVal): Option<seq<Param>> {
    if v.PyNone? then Some([])
    else if v.PyList? && |v.items| > 0 then DecodeParamItems(v.items)
    else None
  }

  function DecodeExpr(v: PyVal): Option<Expr> {
    if !v.PyLeaf? then None
    else if v.leafName == "Number" then
      if |v.value| == 1 && v.value[0].PyInt? && v.value[0].i >= 0 then Some(Num(v.value[0].i)) else None
    else if v.leafName == "MATH EXPRESSION" then
      if |v.value| == 1 then
        match DecodeExpr(v.value[0])
        case Some(e) => Some(Group(e))
        case None => None
      else if |v.value| == 2 && v.value[0].PyStr? then
        match DecodeExpr(v.value[1])
        case Some(e) => Some(Unary(v.value[0].s, e))
        case None => None
      else if |v.value| == 3 && v.value[0].PyStr? then
        match (DecodeExpr(v.value[1]), DecodeExpr(v.value[2]))
        case (Some(l), Some(r)) => Some(Binary(v.value[0].s, l, r))
        case _ => None
      else None
    else None
  }

  /** The body of a `Statement` leaf. */
  function DecodeStmtBody(v: PyVal): Option<Stmt>
    decreases v, 2
  {
    if v.PyLeaf? && v.leafName == "Declare function" then
      if |v.value| == 4 && v.value[0].PyStr? && v.value[1].PyStr? then
        match (DecodeParams(v.value[2]), DecodeStmts(v.value[3]))
        case (Some(ps), Some(body)) => Some(Declare(v.value[0].s, v.value[1].s, ps, body))
        case _ => None
      else None
    else if v.PyLeaf? && v.leafName == "Call function" then
      if |v.value| == 2 && v.value[0].PyStr? then
        match DecodeParams(v.value[1])
        case Some(ps) => Some(Call(v.value[0].s, ps))
        case None => None
      else None
    else if v.PyLeaf? && v.leafName == "IF" then
      if |v.value| == 2 && v.value[0].PyStr? then
        match DecodeStmts(v.value[1])
        case Some(body) => Some(IfThen(v.value[0].s, body))
        case None => None
      else None
    else if v.PyLeaf? && v.leafName == "IF ELSE" then
      if |v.value| == 3 && v.value[0].PyStr? then
        match (DecodeStmts(v.value[1]), DecodeStmts(v.value[2]))
        case (Some(b1), Some(b2)) => Some(IfElse(v.value[0].s, b1, b2))
        case _ => None
      else None
    else if v.PyLeaf? && v.leafName == "WHILE" then
      if |v.value| == 2 && v.value[0].PyStr? then
        match DecodeStmts(v.value[1])
        case Some(body) => Some(While(v.value[0].s, body))
        case None => None
      else None
    else
      match DecodeExpr(v)
      case Some(e) => Some(ExprStmt(e))
      case None => None
  }

  function DecodeStmt(v: PyVal): Option<Stmt>
    decreases v, 3
  {
    if v.PyLeaf? && v.leafName == "Statement" && |v.value| == 1 then DecodeStmtBody(v.value[0]) else None
  }

  /** The items of list `v` from index `from` on. */
  function DecodeStmtItems(v: PyVal, from: nat): Option<seq<Stmt>>
    requires v.PyList? && from <= |v.items|
    decreases v, 0, |v.items| - from
  {
    if from == |v.items| then Some([])
    else
      match (DecodeStmt(v.items[from]), DecodeStmtItems(v, from + 1))
      case (Some(s), Some(ss)) => Some([s] + ss)
      case _ => None
  }

  function DecodeStmts(v: PyVal): Option<seq<Stmt>>
    decreases v, 1
  {
    if v.PyNone? then Some([])
    else if v.PyList? && |v.items| > 0 then DecodeStmtItems(v, 0)
    else None
  }

  function DecodeProgram(v: PyVal): Option<seq<Stmt>> {
    if v.PyNode? && v.name == "Program" && |v.children| == 1 then DecodeStmts(v.children[0]) else None
  }

  // ---------------------------------------------------------------------------
  // The list encodings hold the items' encodings in order

  lemma {:induction false} EncodeParamsItems(ps: seq<Param>)
    ensures EncodeParams(ps).PyNone? <==> |ps| == 0
    ensures EncodeParams(ps).PyList? ==>
      && |EncodeParams(ps).items| == |ps|
      && forall k :: 0 <= k < |ps| ==> EncodeParams(ps).items[k] == EncodeParam(ps[k])
  {
    if |ps| > 0 {
      EncodeParamsItems(ps[1..]);
    }
  }

  lemma {:induction false} EncodeStmtsItems(ss: seq<Stmt>)
    ensures EncodeStmts(ss).PyNone? <==> |ss| == 0
    ensures EncodeStmts(ss).PyList? ==>
      && |EncodeStmts(ss).items| == |ss|
      && forall k :: 0 <= k < |ss| ==> EncodeStmts(ss).items[k] == EncodeStmt(ss[k])
  {
    if |ss| > 0 {
      EncodeStmtsItems(ss[1..]);
    }
  }

  // ---------------------------------------------------------------------------
  // Decoding undoes encoding

  lemma {:induction false} ParamItemsDecode(items: seq<PyVal>, ps: seq<Param>)
    requires |items| == |ps|
    requires forall k :: 0 <= k < |ps| ==> DecodeParam(items[k]) == Some(ps[k])
    ensures DecodeParamItems(items) == Some(ps)
  {
    if |ps| > 0 {
      ParamItemsDecode(items[1..], ps[1..]);
      assert [ps[0]] + ps[1..] == ps;
    }
  }

  lemma ParamsRoundTrip(ps: seq<Param>)
    ensures DecodeParams(EncodeParams(ps)) == Some(ps)
  {
    EncodeParamsItems(ps);
    if |ps| > 0 {
      ParamItemsDecode(EncodeParams(ps).items, ps);
    }
  }

  lemma {:induction false} ExprRoundTrip(e: Expr)
    ensures DecodeExpr(EncodeExpr(e)) == Some(e)
  {
    match e
    case Num(_) =>
    case Unary(_, arg) => ExprRoundTrip(arg);
    case Group(inner) => ExprRoundTrip(inner);
    case Binary(_, l, r) => ExprRoundTrip(l); ExprRoundTrip(r);
  }

  lemma {:induction false} StmtItemsDecode(v: PyVal, from: nat, ss: seq<Stmt>)
    requires v.PyList? && from <= |v.items| && |ss| == |v.items|
    requires forall k :: 0 <= k < |ss| ==> DecodeStmt(v.items[k]) == Some(ss[k])
    ensures DecodeStmtItems(v, from) == Some(ss[from..])
    decreases |v.items| - from
  {
    if from < |v.items| {
      StmtItemsDecode(v, from + 1, ss);
      assert DecodeStmt(v.items[from]) == Some(ss[from]);
      assert [ss[from]] + ss[from + 1..] == ss[from..];
    } else {
      assert ss[from..] == [];
    }
  }

  lemma {:induction false} StmtRoundTrip(s: Stmt)
    ensures DecodeStmt(EncodeStmt(s)) == Some(s)
    decreases s, 1
  {
    match s
    case Declare(_, _, ps, body) => ParamsRoundTrip(ps); StmtsRoundTrip(body);
    case Call(_, ps) => ParamsRoundTrip(ps);
    case IfThen(_, body) => StmtsRoundTrip(body);
    case IfElse(_, b1, b2) => StmtsRoundTrip(b1); StmtsRoundTrip(b2);
    case While(_, body) => StmtsRoundTrip(body);
    case ExprStmt(e) => ExprRoundTrip(e);
  }

  lemma {:induction false} StmtsRoundTrip(ss: seq<Stmt>)
    ensures DecodeStmts(EncodeStmts(ss)) == Some(ss)
    decreases ss, 0
  {
    EncodeStmtsItems(ss);
    if |ss| > 0 {
      var v := EncodeStmts(ss);
      forall k | 0 <= k < |ss| ensures DecodeStmt(v.items[k]) == Some(ss[k]) {
        StmtRoundTrip(ss[k]);
      }
      StmtItemsDecode(v, 0, ss);
    }
  }

  /** The tree `p_program` builds for a program reads back as that program. */
  lemma ProgramRoundTrip(ss: seq<Stmt>)
    ensures DecodeProgram(EncodeProgram(ss)) == Some(ss)
  {
    StmtsRoundTrip(ss);
  }

  // ---------------------------------------------------------------------------
  // Every value that decodes is the encoding of what it decodes to

  lemma ParamCanonical(v: PyVal)
    ensures DecodeParam(v).Some? ==> EncodeParam(DecodeParam(v).value) == v
  {
    if DecodeParam(v).Some? {
      var inner := v.elems[1].elems;
      assert v.elems == [v.elems[0], v.elems[1]];
      assert inner == [inner[0], inner[1]];
    }
  }

  lemma {:induction false} ParamItemsDecoded(items: seq<PyVal>)
    ensures DecodeParamItems(items).Some? ==>
      && |DecodeParamItems(items).value| == |items|
      && forall k :: 0 <= k < |items| ==> DecodeParam(items[k]) == Some(DecodeParamItems(items).value[k])
  {
    if |items| > 0 {
      ParamItemsDecoded(items[1..]);
      if DecodeParamItems(items).Some? {
        var ps := DecodeParamItems(items).value;
        forall k | 0 <= k < |items| ensures DecodeParam(items[k]) == Some(ps[k]) {
          if k > 0 { assert items[k] == items[1..][k - 1]; }
        }
      }
    }
  }

  lemma ParamsCanonical(v: PyVal)
    ensures DecodeParams(v).Some? ==> EncodeParams(DecodeParams(v).value) == v
  {
    if DecodeParams(v).Some? && v.PyList? {
      var ps := DecodeParams(v).value;
      ParamItemsDecoded(v.items);
      EncodeParamsItems(ps);
      forall k | 0 <= k < |ps| ensures EncodeParams(ps).items[k] == v.items[k] {
        ParamCanonical(v.items[k]);
      }
    }
  }

  lemma {:induction false} ExprCanonical(v: PyVal)
    ensures DecodeExpr(v).Some? ==> EncodeExpr(DecodeExpr(v).value) == v
  {
    if DecodeExpr(v).Some? {
      var w := v.value;
      if v.leafName == "Number" {
        assert w == [w[0]];
      } else if |w| == 1 {
        ExprCanonical(w[0]);
        assert w == [w[0]];
      } else if |w| == 2 {
        ExprCanonical(w[1]);
        assert w == [w[0], w[1]];
      } else {
        ExprCanonical(w[1]);
        ExprCanonical(w[2]);
        assert w == [w[0], w[1], w[2]];
      }
    }
  }

  lemma {:induction false} StmtItemsDecoded(v: PyVal, from: nat)
    requires v.PyList? && from <= |v.items|
    ensures DecodeStmtItems(v, from).Some? ==>
      && |DecodeStmtItems(v, from).value| == |v.items| - from
      && forall k :: from <= k < |v.items| ==>
           DecodeStmt(v.items[k]) == Some(DecodeStmtItems(v, from).value[k - from])
    decreases |v.items| - from
  {
    if from < |v.items| {
      StmtItemsDecoded(v, from + 1);
    }
  }

  lemma {:induction false} StmtBodyCanonical(v: PyVal)
    ensures DecodeStmtBody(v).Some? ==> EncodeStmt(DecodeStmtBody(v).value) == StatementLeaf(v)
    decreases v, 1
  {
    if DecodeStmtBody(v).Some? {
      if v.PyLeaf? && v.leafName == "Declare function" {
        ParamsCanonical(v.value[2]);
        StmtsCanonical(v.value[3]);
        DeclareCanonical(v);
      } else if v.PyLeaf? && v.leafName == "Call function" {
        ParamsCanonical(v.value[1]);
        CallCanonical(v);
      } else if v.PyLeaf? && (v.leafName == "IF" || v.leafName == "WHILE") {
        StmtsCanonical(v.value[1]);
        CondCanonical(v);
      } else if v.PyLeaf? && v.leafName == "IF ELSE" {
        StmtsCanonical(v.value[1]);
        StmtsCanonical(v.value[2]);
        IfElseCanonical(v);
      } else {
        ExprCanonical(v);
      }
    }
  }

  /** The steps of `StmtBodyCanonical`, one per statement leaf, from the parts being
      canonical to the leaf being canonical. */
  lemma DeclareCanonical(v: PyVal)
    requires v.PyLeaf? && v.leafName == "Declare function" && DecodeStmtBody(v).Some?
    requires EncodeParams(DecodeParams(v.value[2]).value) == v.value[2]
    requires EncodeStmts(DecodeStmts(v.value[3]).value) == v.value[3]
    ensures EncodeStmt(DecodeStmtBody(v).value) == StatementLeaf(v)
  {
    var w := v.value;
    var ps, body := DecodeParams(w[2]).value, DecodeStmts(w[3]).value;
    assert DecodeStmtBody(v).value == Declare(w[0].s, w[1].s, ps, body);
    assert w == [PyStr(w[0].s), PyStr(w[1].s), EncodeParams(ps), EncodeStmts(body)];
  }

  lemma CallCanonical(v: PyVal)
    requires v.PyLeaf? && v.leafName == "Call function" && DecodeStmtBody(v).Some?
    requires EncodeParams(DecodeParams(v.value[1]).value) == v.value[1]
    ensures EncodeStmt(DecodeStmtBody(v).value) == StatementLeaf(v)
  {
    var w := v.value;
    var ps := DecodeParams(w[1]).value;
    assert DecodeStmtBody(v).value == Call(w[0].s, ps);
    assert w == [PyStr(w[0].s), EncodeParams(ps)];
  }

  lemma CondCanonical(v: PyVal)
    requires v.PyLeaf? && (v.leafName == "IF" || v.leafName == "WHILE") && DecodeStmtBody(v).Some?
    requires EncodeStmts(DecodeStmts(v.value[1]).value) == v.value[1]
    ensures EncodeStmt(DecodeStmtBody(v).value) == StatementLeaf(v)
  {
    var w := v.value;
    var body := DecodeStmts(w[1]).value;
    assert w == [PyStr(w[0].s), w[1]];
    if v.leafName == "IF" {
      assert DecodeStmtBody(v).value == IfThen(w[0].s, body);
      assert EncodeStmt(IfThen(w[0].s, body)) == StatementLeaf(IfLeaf(w[0].s, w[1]));
    } else {
      assert DecodeStmtBody(v).value == While(w[0].s, body);
      assert EncodeStmt(While(w[0].s, body)) == StatementLeaf(WhileLeaf(w[0].s, w[1]));
    }
  }

  lemma IfElseCanonical(v: PyVal)
    requires v.PyLeaf? && v.leafName == "IF ELSE" && DecodeStmtBody(v).Some?
    requires EncodeStmts(DecodeStmts(v.value[1]).value) == v.value[1]
    requires EncodeStmts(DecodeStmts(v.value[2]).value) == v.value[2]
    ensures EncodeStmt(DecodeStmtBody(v).value) == StatementLeaf(v)
  {
    var w := v.value;
    var b1, b2 := DecodeStmts(w[1]).value, DecodeStmts(w[2]).value;
    assert DecodeStmtBody(v).value == IfElse(w[0].s, b1, b2);
    assert EncodeStmt(IfElse(w[0].s, b1, b2)) == StatementLeaf(IfElseLeaf(w[0].s, w[1], w[2]));
    assert w == [PyStr(w[0].s), w[1], w[2]];
  }

  lemma {:induction false} StmtCanonical(v: PyVal)
    ensures DecodeStmt(v).Some? ==> EncodeStmt(DecodeStmt(v).value) == v
    decreases v, 2
  {
    if DecodeStmt(v).Some? {
      StmtBodyCanonical(v.value[0]);
      assert v.value == [v.value[0]];
    }
  }

  lemma {:induction false} StmtsCanonical(v: PyVal)
    ensures DecodeStmts(v).Some? ==> EncodeStmts(DecodeStmts(v).value) == v
    decreases v, 1
  {
    if DecodeStmts(v).Some? && v.PyList? {
      var ss := DecodeStmts(v).value;
      StmtItemsDecoded(v, 0);
      EncodeStmtsItems(ss);
      ItemsCanonical(v, ss);
    }
  }

  /** Each item of a list that reads back as `ss` is the encoding of its statement. */
  lemma {:induction false} ItemsCanonical(v: PyVal, ss: seq<Stmt>)
    requires v.PyList? && |ss| == |v.items|
    requires forall k :: 0 <= k < |ss| ==> DecodeStmt(v.items[k]) == Some(ss[k])
    ensures forall k :: 0 <= k < |ss| ==> EncodeStmt(ss[k]) == v.items[k]
    decreases v, 0
  {
    forall k | 0 <= k < |ss| ensures EncodeStmt(ss[k]) == v.items[k] {
      StmtCanonical(v.items[k]);
    }
  }

  /** A value that reads back as a program is the tree the actions build for it: the
      encoding is one-to-one onto the values that decode. */
  lemma ProgramCanonical(v: PyVal)
    ensures DecodeProgram(v).Some? ==> EncodeProgram(DecodeProgram(v).value) == v
  {
    if DecodeProgram(v).Some? {
      StmtsCanonical(v.children[0]);
      assert v.children == [v.children[0]];
    }
  }
}
