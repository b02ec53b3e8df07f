/**
 The code transformation that removes the Russian branches: conditionals and ifs whose test is recognised as a
 language test are replaced by their other branch. Proved: which programs it leaves with their meaning, in every run
 in which the language is not Russian.
 */
module LangRewrite {
  import opened Common

  // ----- programs -----

  datatype Value = Undefined | Null | Bool(b: bool) | Num(n: int) | Str(s: string) | Obj(id: nat) | FunRef(name: string)

  datatype Expr =
    | Literal(v: Value)
    | Ident(name: string)
    | Binary(op: string, left: Expr, right: Expr)
    | And(left: Expr, right: Expr)
    | Or(left: Expr, right: Expr)
    | Conditional(test: Expr, consequent: Expr, alternate: Expr)
    | Member(receiver: Expr, property: Expr, computed: bool)
    | Call(callee: Expr, args: seq<Expr>)
    | Assign(target: string, value: Expr)
    | Compound(kind: string, parts: seq<Expr>)  // array, object and template literals and the like

  datatype Stmt =
    | Empty
    | ExprStmt(e: Expr)
    | Declare(name: string, init: Expr)
    | Block(body: seq<Stmt>)
    | If(test: Expr, consequent: Stmt)
    | IfElse(test: Expr, consequent: Stmt, alternate: Stmt)
    | While(test: Expr, loop: Stmt)
    | Return(e: Expr)
    | Throw(e: Expr)

  datatype Fun = Fun(params: seq<string>, code: Stmt)

  /** Functions by their names; methods by names that are no identifiers, such as "Bot.reply". */
  type Program = map<string, Fun>

  // ----- running programs -----

  /** The state shared by all function calls: global variables and everything outside the program. */
  datatype Outer = Outer(globals: map<string, Value>, token: int)

  /** `russian` records that a run left the promise: see `EvalE`. */
  datatype State = State(locals: map<string, Value>, outer: Outer, russian: bool)

  datatype Out = Val(v: Value) | Exn(v: Value) | Stuck
  datatype ListOut = Vals(vs: seq<Value>) | ListExn(v: Value) | ListStuck
  datatype Completion = Normal | Returned(v: Value) | Thrown(v: Value) | StuckIn

  /** Whatever the program uses but does not define. */
  datatype World = World(
    text: nat -> string,                                        // the string an object coerces to
    source: string -> string,                                   // the string a function coerces to
    number: string -> Option<int>,                              // the number a string coerces to
    binary: (string, Value, Value) -> Value,                    // all other binary operators
    member: (Value, Value, Outer) -> Value,                     // property reads
    build: (string, seq<Value>, Outer) -> (Out, Outer),         // literals
    resolve: (Value, Value, Outer) -> Option<string>,            // the method found under a name in a receiver
    invoke: (Value, Value, seq<Value>, Outer) -> (Out, Outer),  // calls of methods the program does not define
    apply: (Value, seq<Value>, Outer) -> (Out, Outer))          // calls of other function values

  predicate Truthy(v: Value) {
    match v
    case Undefined => false
    case Null => false
    case Bool(b) => b
    case Num(n) => n != 0
    case Str(s) => s != ""
    case Obj(_) => true
    case FunRef(_) => true
  }

  /** No numeral contains an r or a u. */
  function NumberOf(w: World, s: string): Option<int> {
    if 'r' in s || 'u' in s then None else w.number(s)
  }

  /** `==` against a string. */
  predicate LooseEqString(w: World, v: Value, s: string) {
    match v
    case Str(t) => t == s
    case Obj(id) => w.text(id) == s
    case FunRef(name) => w.source(name) == s
    case Num(n) => NumberOf(w, s) == Some(n)
    case Bool(b) => NumberOf(w, s) == Some(if b then 1 else 0)
    case _ => false
  }

  predicate IsRussian(w: World, v: Value) { LooseEqString(w, v, "ru") }

  function BinaryValue(w: World, op: string, a: Value, b: Value): Value {
    if op == "===" then Bool(a == b)
    else if op == "==" && b.Str? then Bool(LooseEqString(w, a, b.s))
    else if op == "==" && a.Str? then Bool(LooseEqString(w, b, a.s))
    else w.binary(op, a, b)
  }

  /** Variables shadow the program's functions; reading a function name gives the function as a value. */
  function Read(p: Program, st: State, name: string): Value {
    if name in st.locals then st.locals[name]
    else if name in st.outer.globals then st.outer.globals[name]
    else if name in p then FunRef(name) else Undefined
  }

  function Write(st: State, name: string, v: Value): State {
    if name in st.locals then st.(locals := st.locals[name := v])
    else st.(outer := st.outer.(globals := st.outer.globals[name := v]))
  }

  function Bind(params: seq<string>, vs: seq<Value>): map<string, Value> {
    if params == [] then map[]
    else Bind(params[1..], if vs == [] then [] else vs[1..])[params[0] := if vs == [] then Undefined else vs[0]]
  }

  /** The locals a function starts with. */
  function Frame(f: Fun, self: Value, vs: seq<Value>): map<string, Value> { Bind(f.params, vs)["this" := self] }

  function Flag(st: State, bad: bool): State { st.(russian := st.russian || bad) }

  /** A call of a method that is named `lang` or `detectLang` in the text: `x.lang(...)`. */
  predicate NamedLangCall(e: Expr) {
    e.Call? && e.callee.Member? && !e.callee.computed && e.callee.property.Ident?
    && e.callee.property.name in ["lang", "detectLang"]
  }

  /**
   Evaluation. The run is marked as leaving the promise when `lang` is read and is 'ru', when `isRu` is read and is
   truthy, and when a call of `lang()` or `detectLang()` changes the state, throws or returns 'ru'.
   Fuel bounds calls and loop iterations.
   */
  function EvalE(w: World, p: Program, e: Expr, st: State, fuel: nat): (r: (Out, State))
    ensures st.russian ==> r.1.russian
    decreases fuel, e, 1
  {
    match e
    case Literal(v) => (Val(v), st)
    case Ident(name) =>
      var v := Read(p, st, name);
      (Val(v), Flag(st, (name == "lang" && IsRussian(w, v)) || (name == "isRu" && Truthy(v))))
    case Binary(op, left, right) =>
      var (a, s1) := EvalE(w, p, left, st, fuel);
      if !a.Val? then (a, s1)
      else
        var (b, s2) := EvalE(w, p, right, s1, fuel);
        if !b.Val? then (b, s2) else (Val(BinaryValue(w, op, a.v, b.v)), s2)
    case And(left, right) =>
      var (a, s1) := EvalE(w, p, left, st, fuel);
      if !a.Val? || !Truthy(a.v) then (a, s1) else EvalE(w, p, right, s1, fuel)
    case Or(left, right) =>
      var (a, s1) := EvalE(w, p, left, st, fuel);
      if !a.Val? || Truthy(a.v) then (a, s1) else EvalE(w, p, right, s1, fuel)
    case Conditional(test, consequent, alternate) =>
      var (a, s1) := EvalE(w, p, test, st, fuel);
      if !a.Val? then (a, s1)
      else if Truthy(a.v) then EvalE(w, p, consequent, s1, fuel) else EvalE(w, p, alternate, s1, fuel)
    case Member(receiver, property, computed) =>
      var (a, n, s1) := EvalMember(w, p, e, st, fuel);
      if !a.Val? then (a, s1) else if !n.Val? then (n, s1) else (Val(w.member(a.v, n.v, s1.outer)), s1)
    case Call(callee, args) =>
      var (out, s1) := EvalCall(w, p, e, st, fuel);
      (out, Flag(s1, NamedLangCall(e) && (s1 != st || !out.Val? || IsRussian(w, out.v))))
    case Assign(target, value) =>
      var (a, s1) := EvalE(w, p, value, st, fuel);
      if !a.Val? then (a, s1) else (a, Write(s1, target, a.v))
    case Compound(kind, parts) =>
      var (vs, s1) := EvalEs(w, p, parts, st, fuel);
      if !vs.Vals? then (AsOut(vs), s1)
      else var (out, outer) := w.build(kind, vs.vs, s1.outer); (out, s1.(outer := outer))
  }

  function AsOut(l: ListOut): Out {
    match l
    case Vals(_) => Stuck
    case ListExn(v) => Exn(v)
    case ListStuck => Stuck
  }

  /** The receiver and the name of a member expression. */
  function EvalMember(w: World, p: Program, m: Expr, st: State, fuel: nat): (r: (Out, Out, State))
    requires m.Member?
    ensures st.russian ==> r.2.russian
    decreases fuel, m, 0
  {
    var (a, s1) := EvalE(w, p, m.receiver, st, fuel);
    if !a.Val? then (a, Stuck, s1)
    else if m.computed then var (n, s2) := EvalE(w, p, m.property, s1, fuel); (a, n, s2)
    else (a, if m.property.Ident? then Val(Str(m.property.name)) else Stuck, s1)
  }

  function EvalCall(w: World, p: Program, e: Expr, st: State, fuel: nat): (r: (Out, State))
    requires e.Call?
    ensures st.russian ==> r.1.russian
    decreases fuel, e, 0
  {
    if e.callee.Member? then
      var (a, n, s1) := EvalMember(w, p, e.callee, st, fuel);
      if !a.Val? then (a, s1)
      else if !n.Val? then (n, s1)
      else
        var (vs, s2) := EvalEs(w, p, e.args, s1, fuel);
        var found := w.resolve(a.v, n.v, s2.outer);
        if !vs.Vals? then (AsOut(vs), s2)
        else if found.None? || found.value !in p then
          var (out, outer) := w.invoke(a.v, n.v, vs.vs, s2.outer); (out, s2.(outer := outer))
        else if fuel == 0 then (Stuck, s2)
        else
          var f := p[found.value];
          var (c, s3) := Exec(w, p, f.code, State(Frame(f, a.v, vs.vs), s2.outer, s2.russian), fuel - 1);
          (FromCompletion(c), State(s2.locals, s3.outer, s3.russian))
    else
      var (a, s1) := EvalE(w, p, e.callee, st, fuel);
      if !a.Val? then (a, s1)
      else
        var (vs, s2) := EvalEs(w, p, e.args, s1, fuel);
        if !vs.Vals? then (AsOut(vs), s2)
        else if !(a.v.FunRef? && a.v.name in p) then
          var (out, outer) := w.apply(a.v, vs.vs, s2.outer); (out, s2.(outer := outer))
        else if fuel == 0 then (Stuck, s2)
        else
          var f := p[a.v.name];
          var (c, s3) := Exec(w, p, f.code, State(Frame(f, Undefined, vs.vs), s2.outer, s2.russian), fuel - 1);
          (FromCompletion(c), State(s2.locals, s3.outer, s3.russian))
  }

  function FromCompletion(c: Completion): Out {
    match c
    case Normal => Val(Undefined)
    case Returned(v) => Val(v)
    case Thrown(v) => Exn(v)
    case StuckIn => Stuck
  }

  function EvalEs(w: World, p: Program, es: seq<Expr>, st: State, fuel: nat): (r: (ListOut, State))
    ensures st.russian ==> r.1.russian
    decreases fuel, es, 0
  {
    if es == [] then (Vals([]), st)
    else
      var (a, s1) := EvalE(w, p, es[0], st, fuel);
      match a
      case Exn(v) => (ListExn(v), s1)
      case Stuck => (ListStuck, s1)
      case Val(v) =>
        var (vs, s2) := EvalEs(w, p, es[1..], s1, fuel);
        (if vs.Vals? then Vals([v] + vs.vs) else vs, s2)
  }

  function Complete(a: Out): Completion {
    match a
    case Val(_) => Normal
    case Exn(v) => Thrown(v)
    case Stuck => StuckIn
  }

  function Exec(w: World, p: Program, s: Stmt, st: State, fuel: nat): (r: (Completion, State))
    ensures st.russian ==> r.1.russian
    decreases fuel, s, 0
  {
    match s
    case Empty => (Normal, st)
    case ExprStmt(e) => var (a, s1) := EvalE(w, p, e, st, fuel); (Complete(a), s1)
    case Declare(name, init) =>
      var (a, s1) := EvalE(w, p, init, st, fuel);
      if !a.Val? then (Complete(a), s1) else (Normal, s1.(locals := s1.locals[name := a.v]))
    case Block(body) => ExecAll(w, p, body, st, fuel)
    case If(test, consequent) =>
      var (a, s1) := EvalE(w, p, test, st, fuel);
      if !a.Val? then (Complete(a), s1)
      else if Truthy(a.v) then Exec(w, p, consequent, s1, fuel) else (Normal, s1)
    case IfElse(test, consequent, alternate) =>
      var (a, s1) := EvalE(w, p, test, st, fuel);
      if !a.Val? then (Complete(a), s1)
      else if Truthy(a.v) then Exec(w, p, consequent, s1, fuel) else Exec(w, p, alternate, s1, fuel)
    case While(test, loop) =>
      var (a, s1) := EvalE(w, p, test, st, fuel);
      if !a.Val? then (Complete(a), s1)
      else if !Truthy(a.v) then (Normal, s1)
      else
        var (c, s2) := Exec(w, p, loop, s1, fuel);
        if !c.Normal? then (c, s2)
        else if fuel == 0 then (StuckIn, s2)
        else Exec(w, p, s, s2, fuel - 1)
    case Return(e) =>
      var (a, s1) := EvalE(w, p, e, st, fuel); (if a.Val? then Returned(a.v) else Complete(a), s1)
    case Throw(e) =>
      var (a, s1) := EvalE(w, p, e, st, fuel); (if a.Val? then Thrown(a.v) else Complete(a), s1)
  }

  function ExecAll(w: World, p: Program, ss: seq<Stmt>, st: State, fuel: nat): (r: (Completion, State))
    ensures st.russian ==> r.1.russian
    decreases fuel, ss, 0
  {
    if ss == [] then (Normal, st)
    else
      var (c, s1) := Exec(w, p, ss[0], st, fuel);
      if c.Normal? then ExecAll(w, p, ss[1..], s1, fuel) else (c, s1)
  }

  // ----- the transformation -----

  predicate LangIdent(e: Expr) { e.Ident? && e.name in ["lang", "isRu"] }

  predicate RuLiteral(e: Expr) { e == Literal(Str("ru")) }

  /** The call shape the recogniser looks for; it does not look whether the member access is computed. */
  predicate LangCallShape(e: Expr) {
    e.Call? && e.callee.Member? && e.callee.property.Ident? && e.callee.property.name in ["lang", "detectLang"]
  }

  /** `isLangCondition` */
  predicate IsLangCondition(e: Expr) {
    if e.Binary? && e.op in ["===", "=="] then
      || (LangIdent(e.left) && RuLiteral(e.right)) || (LangIdent(e.right) && RuLiteral(e.left))
      || (LangCallShape(e.left) && RuLiteral(e.right))
    else e == Ident("isRu")
  }

  /** The recognised test calls the method whose name is the value of the variable `lang`: `x[lang](...)`. */
  predicate ComputedTest(e: Expr) {
    e.Binary? && LangCallShape(e.left) && e.left.callee.computed
  }

  predicate Removable(test: Expr) { IsLangCondition(test) && !ComputedTest(test) }

  datatype Pass = Conditionals | Ifs

  /**
   `e'` is `e` after a pass. The first pass replaces recognised conditionals by their alternate: any choice of them,
   nested ones included, since which nested ones are reached depends on how the tree is updated. The second pass
   leaves expressions alone.
   */
  ghost predicate RewE(pass: Pass, e: Expr, e': Expr)
    decreases e, 0
  {
    || (pass.Conditionals? && e.Conditional? && IsLangCondition(e.test) && RewE(pass, e.alternate, e'))
    || match e
       case Literal(_) => e' == e
       case Ident(_) => e' == e
       case Binary(op, left, right) =>
         e'.Binary? && e'.op == op && RewE(pass, left, e'.left) && RewE(pass, right, e'.right)
       case And(left, right) => e'.And? && RewE(pass, left, e'.left) && RewE(pass, right, e'.right)
       case Or(left, right) => e'.Or? && RewE(pass, left, e'.left) && RewE(pass, right, e'.right)
       case Conditional(test, consequent, alternate) =>
         && e'.Conditional? && RewE(pass, test, e'.test)
         && RewE(pass, consequent, e'.consequent) && RewE(pass, alternate, e'.alternate)
       case Member(receiver, property, computed) =>
         e'.Member? && e'.computed == computed && RewE(pass, receiver, e'.receiver)
         && if computed then RewE(pass, property, e'.property) else e'.property == property
       case Call(callee, args) => e'.Call? && RewE(pass, callee, e'.callee) && RewEs(pass, args, e'.args)
       case Assign(target, value) => e'.Assign? && e'.target == target && RewE(pass, value, e'.value)
       case Compound(kind, parts) => e'.Compound? && e'.kind == kind && RewEs(pass, parts, e'.parts)
  }

  ghost predicate RewEs(pass: Pass, es: seq<Expr>, es': seq<Expr>)
    decreases es, 0
  {
    |es| == |es'| && (es == [] || (RewE(pass, es[0], es'[0]) && RewEs(pass, es[1..], es'[1..])))
  }

  /** The second pass replaces recognised ifs, any choice of them, by their else branch, or removes them without one. */
  predicate Drops(pass: Pass, test: Expr) { pass.Ifs? && IsLangCondition(test) }

  ghost predicate RewS(pass: Pass, s: Stmt, s': Stmt)
    decreases s, 0
  {
    || (s.IfElse? && Drops(pass, s.test) && RewS(pass, s.alternate, s'))
    || (s.If? && Drops(pass, s.test) && s' == Empty)
    || match s
       case Empty => s' == s
       case ExprStmt(e) => s'.ExprStmt? && RewE(pass, e, s'.e)
       case Declare(name, init) => s'.Declare? && s'.name == name && RewE(pass, init, s'.init)
       case Block(body) => s'.Block? && RewSs(pass, body, s'.body)
       case If(test, consequent) => s'.If? && RewE(pass, test, s'.test) && RewS(pass, consequent, s'.consequent)
       case IfElse(test, consequent, alternate) =>
         || (&& s'.IfElse? && RewE(pass, test, s'.test)
             && RewS(pass, consequent, s'.consequent) && RewS(pass, alternate, s'.alternate))
         || (&& s'.If? && RewE(pass, test, s'.test) && RewS(pass, consequent, s'.consequent)
             && alternate.If? && Drops(pass, alternate.test))
       case While(test, loop) => s'.While? && RewE(pass, test, s'.test) && RewS(pass, loop, s'.loop)
       case Return(e) => s'.Return? && RewE(pass, e, s'.e)
       case Throw(e) => s'.Throw? && RewE(pass, e, s'.e)
  }

  /** In a statement list a removed if leaves no trace. */
  ghost predicate RewSs(pass: Pass, ss: seq<Stmt>, ss': seq<Stmt>)
    decreases ss
  {
    if ss == [] then ss' == []
    else
      || (ss[0].If? && Drops(pass, ss[0].test) && RewSs(pass, ss[1..], ss'))
      || (ss' != [] && RewS(pass, ss[0], ss'[0]) && RewSs(pass, ss[1..], ss'[1..]))
  }

  ghost predicate RewP(pass: Pass, p: Program, p': Program) {
    p.Keys == p'.Keys && forall f :: f in p ==> p'[f].params == p[f].params && RewS(pass, p[f].code, p'[f].code)
  }

  // ----- the programs that keep their meaning: a check of the text -----

  /** The first pass can turn the expression into a member access. */
  predicate EndsInMember(e: Expr) {
    e.Conditional? && IsLangCondition(e.test) && (e.alternate.Member? || EndsInMember(e.alternate))
  }

  /** No recognised test is a computed call, and no plain call can become a method call. Removed branches do not count. */
  predicate SafeE(e: Expr)
    decreases e
  {
    match e
    case Literal(_) => true
    case Ident(_) => true
    case Binary(_, left, right) => SafeE(left) && SafeE(right)
    case And(left, right) => SafeE(left) && SafeE(right)
    case Or(left, right) => SafeE(left) && SafeE(right)
    case Conditional(test, consequent, alternate) =>
      && SafeE(test) && SafeE(alternate)
      && if IsLangCondition(test) then !ComputedTest(test) else SafeE(consequent)
    case Member(receiver, property, computed) => SafeE(receiver) && (computed ==> SafeE(property))
    case Call(callee, args) => !EndsInMember(callee) && SafeE(callee) && SafeEs(args)
    case Assign(_, value) => SafeE(value)
    case Compound(_, parts) => SafeEs(parts)
  }

  predicate SafeEs(es: seq<Expr>)
    decreases es
  {
    es == [] || (SafeE(es[0]) && SafeEs(es[1..]))
  }

  /** What a pass asks of an expression, and of the test of an if. */
  predicate SafeFor(pass: Pass, e: Expr) { pass.Conditionals? ==> SafeE(e) }

  predicate SafeTest(pass: Pass, test: Expr) {
    SafeFor(pass, test) && (Drops(pass, test) ==> !ComputedTest(test))
  }

  predicate SafeS(pass: Pass, s: Stmt)
    decreases s
  {
    match s
    case Empty => true
    case ExprStmt(e) => SafeFor(pass, e)
    case Declare(_, init) => SafeFor(pass, init)
    case Block(body) => SafeSs(pass, body)
    case If(test, consequent) => SafeTest(pass, test) && (Removable(test) || SafeS(pass, consequent))
    case IfElse(test, consequent, alternate) =>
      SafeTest(pass, test) && (Removable(test) || SafeS(pass, consequent)) && SafeS(pass, alternate)
    case While(test, loop) => SafeFor(pass, test) && SafeS(pass, loop)
    case Return(e) => SafeFor(pass, e)
    case Throw(e) => SafeFor(pass, e)
  }

  predicate SafeSs(pass: Pass, ss: seq<Stmt>)
    decreases ss
  {
    ss == [] || (SafeS(pass, ss[0]) && SafeSs(pass, ss[1..]))
  }

  predicate SafeP(pass: Pass, p: Program) { forall f :: f in p ==> SafeS(pass, p[f].code) }

  // ----- the proof -----

  /** A recognised test that is no computed call is falsy and changes nothing, unless the run leaves the promise. */
  lemma RemovableTestIsFalsy(w: World, p: Program, test: Expr, st: State, fuel: nat)
    requires Removable(test) && !EvalE(w, p, test, st, fuel).1.russian
    ensures var (a, s1) := EvalE(w, p, test, st, fuel); a.Val? && !Truthy(a.v) && s1 == st
  {
    if test.Binary? && LangCallShape(test.left) && RuLiteral(test.right) {
      assert NamedLangCall(test.left);
    }
  }

  /** A callee that is no member access and cannot become one stays none. */
  lemma {:induction false} NoNewMember(pass: Pass, e: Expr, e': Expr)
    requires RewE(pass, e, e') && !e.Member? && !EndsInMember(e)
    ensures !e'.Member?
    decreases e
  {
    if pass.Conditionals? && e.Conditional? && IsLangCondition(e.test) && RewE(pass, e.alternate, e') {
      NoNewMember(pass, e.alternate, e');
    }
  }

  lemma {:induction false} PreserveE(
    pass: Pass, w: World, p: Program, p': Program, e: Expr, e': Expr, st: State, fuel: nat)
    requires RewP(pass, p, p') && SafeP(pass, p) && RewE(pass, e, e') && SafeFor(pass, e)
    requires !EvalE(w, p, e, st, fuel).1.russian
    ensures EvalE(w, p', e', st, fuel) == EvalE(w, p, e, st, fuel)
    decreases fuel, e, 3
  {
    if pass.Conditionals? && e.Conditional? && IsLangCondition(e.test) && RewE(pass, e.alternate, e') {
      RemovableTestIsFalsy(w, p, e.test, st, fuel);
      PreserveE(pass, w, p, p', e.alternate, e', st, fuel);
    } else {
      SameShapeE(pass, w, p, p', e, e', st, fuel);
    }
  }

  lemma {:induction false} SameShapeE(
    pass: Pass, w: World, p: Program, p': Program, e: Expr, e': Expr, st: State, fuel: nat)
    requires RewP(pass, p, p') && SafeP(pass, p) && RewE(pass, e, e') && SafeFor(pass, e)
    requires !EvalE(w, p, e, st, fuel).1.russian
    requires !(pass.Conditionals? && e.Conditional? && IsLangCondition(e.test) && RewE(pass, e.alternate, e'))
    ensures EvalE(w, p', e', st, fuel) == EvalE(w, p, e, st, fuel)
    decreases fuel, e, 2
  {
    match e {
      case Literal(_) =>
      case Ident(name) =>
      case Binary(_, left, right) =>
        PreserveE(pass, w, p, p', left, e'.left, st, fuel);
        var (a, s1) := EvalE(w, p, left, st, fuel);
        if a.Val? {
          PreserveE(pass, w, p, p', right, e'.right, s1, fuel);
        }
      case And(left, right) =>
        PreserveE(pass, w, p, p', left, e'.left, st, fuel);
        var (a, s1) := EvalE(w, p, left, st, fuel);
        if a.Val? && Truthy(a.v) {
          PreserveE(pass, w, p, p', right, e'.right, s1, fuel);
        }
      case Or(left, right) =>
        PreserveE(pass, w, p, p', left, e'.left, st, fuel);
        var (a, s1) := EvalE(w, p, left, st, fuel);
        if a.Val? && !Truthy(a.v) {
          PreserveE(pass, w, p, p', right, e'.right, s1, fuel);
        }
      case Conditional(test, consequent, alternate) => SameConditional(pass, w, p, p', e, e', st, fuel);
      case Member(_, _, _) => PreserveMember(pass, w, p, p', e, e', st, fuel);
      case Call(_, _) => PreserveCall(pass, w, p, p', e, e', st, fuel);
      case Assign(_, value) => PreserveE(pass, w, p, p', value, e'.value, st, fuel);
      case Compound(_, parts) => PreserveEs(pass, w, p, p', parts, e'.parts, st, fuel);
    }
  }

  /** A conditional the pass leaves standing; if its test is recognised the run does not take the consequent. */
  lemma {:induction false} SameConditional(
    pass: Pass, w: World, p: Program, p': Program, e: Expr, e': Expr, st: State, fuel: nat)
    requires RewP(pass, p, p') && SafeP(pass, p) && SafeFor(pass, e) && !EvalE(w, p, e, st, fuel).1.russian
    requires e.Conditional? && e'.Conditional? && RewE(pass, e.test, e'.test)
    requires RewE(pass, e.consequent, e'.consequent) && RewE(pass, e.alternate, e'.alternate)
    ensures EvalE(w, p', e', st, fuel) == EvalE(w, p, e, st, fuel)
    decreases fuel, e, 1
  {
    PreserveE(pass, w, p, p', e.test, e'.test, st, fuel);
    var (a, s1) := EvalE(w, p, e.test, st, fuel);
    if Removable(e.test) {
      RemovableTestIsFalsy(w, p, e.test, st, fuel);
      PreserveE(pass, w, p, p', e.alternate, e'.alternate, s1, fuel);
    } else if a.Val? && Truthy(a.v) {
      PreserveE(pass, w, p, p', e.consequent, e'.consequent, s1, fuel);
    } else if a.Val? {
      PreserveE(pass, w, p, p', e.alternate, e'.alternate, s1, fuel);
    }
  }

  lemma {:induction false} PreserveMember(
    pass: Pass, w: World, p: Program, p': Program, m: Expr, m': Expr, st: State, fuel: nat)
    requires RewP(pass, p, p') && SafeP(pass, p) && m.Member? && RewE(pass, m, m') && SafeFor(pass, m)
    requires !EvalMember(w, p, m, st, fuel).2.russian
    ensures EvalMember(w, p', m', st, fuel) == EvalMember(w, p, m, st, fuel)
    decreases fuel, m, 0
  {
    PreserveE(pass, w, p, p', m.receiver, m'.receiver, st, fuel);
    var (a, s1) := EvalE(w, p, m.receiver, st, fuel);
    if a.Val? && m.computed {
      PreserveE(pass, w, p, p', m.property, m'.property, s1, fuel);
    }
  }

  lemma {:induction false} PreserveCall(
    pass: Pass, w: World, p: Program, p': Program, e: Expr, e': Expr, st: State, fuel: nat)
    requires RewP(pass, p, p') && SafeP(pass, p) && SafeFor(pass, e)
    requires e.Call? && e'.Call? && RewE(pass, e.callee, e'.callee) && RewEs(pass, e.args, e'.args)
    requires !EvalCall(w, p, e, st, fuel).1.russian
    ensures EvalCall(w, p', e', st, fuel) == EvalCall(w, p, e, st, fuel)
    ensures NamedLangCall(e') == NamedLangCall(e)
    decreases fuel, e, 1
  {
    if e.callee.Member? {
      PreserveMethodCall(pass, w, p, p', e, e', st, fuel);
    } else {
      if pass.Conditionals? { NoNewMember(pass, e.callee, e'.callee); }
      PreserveE(pass, w, p, p', e.callee, e'.callee, st, fuel);
      var (a, s1) := EvalE(w, p, e.callee, st, fuel);
      if a.Val? {
        PreserveEs(pass, w, p, p', e.args, e'.args, s1, fuel);
        var (vs, s2) := EvalEs(w, p, e.args, s1, fuel);
        if vs.Vals? && a.v.FunRef? && a.v.name in p && fuel > 0 {
          var f := p[a.v.name];
          PreserveS(
            pass, w, p, p', f.code, p'[a.v.name].code, State(Frame(f, Undefined, vs.vs), s2.outer, s2.russian), fuel - 1);
        }
      }
    }
  }

  lemma {:induction false} PreserveMethodCall(
    pass: Pass, w: World, p: Program, p': Program, e: Expr, e': Expr, st: State, fuel: nat)
    requires RewP(pass, p, p') && SafeP(pass, p) && SafeFor(pass, e) && e.Call? && e'.Call? && e.callee.Member?
    requires RewE(pass, e.callee, e'.callee) && RewEs(pass, e.args, e'.args) && !EvalCall(w, p, e, st, fuel).1.russian
    ensures EvalCall(w, p', e', st, fuel) == EvalCall(w, p, e, st, fuel)
    decreases fuel, e, 0
  {
    PreserveMember(pass, w, p, p', e.callee, e'.callee, st, fuel);
    var (a, n, s1) := EvalMember(w, p, e.callee, st, fuel);
    if a.Val? && n.Val? {
      PreserveEs(pass, w, p, p', e.args, e'.args, s1, fuel);
      var (vs, s2) := EvalEs(w, p, e.args, s1, fuel);
      var found := w.resolve(a.v, n.v, s2.outer);
      if vs.Vals? && found.Some? && found.value in p && fuel > 0 {
        var f := p[found.value];
        PreserveS(
          pass, w, p, p', f.code, p'[found.value].code, State(Frame(f, a.v, vs.vs), s2.outer, s2.russian), fuel - 1);
      }
    }
  }

  lemma {:induction false} PreserveEs(
    pass: Pass, w: World, p: Program, p': Program, es: seq<Expr>, es': seq<Expr>, st: State, fuel: nat)
    requires RewP(pass, p, p') && SafeP(pass, p) && RewEs(pass, es, es') && (pass.Conditionals? ==> SafeEs(es))
    requires !EvalEs(w, p, es, st, fuel).1.russian
    ensures EvalEs(w, p', es', st, fuel) == EvalEs(w, p, es, st, fuel)
    decreases fuel, es, 0
  {
    if es == [] {
    } else {
      PreserveE(pass, w, p, p', es[0], es'[0], st, fuel);
      var (a, s1) := EvalE(w, p, es[0], st, fuel);
      if a.Val? {
        PreserveEs(pass, w, p, p', es[1..], es'[1..], s1, fuel);
      }
    }
  }

  lemma {:induction false} PreserveS(
    pass: Pass, w: World, p: Program, p': Program, s: Stmt, s': Stmt, st: State, fuel: nat)
    requires RewP(pass, p, p') && SafeP(pass, p) && RewS(pass, s, s') && SafeS(pass, s)
    requires !Exec(w, p, s, st, fuel).1.russian
    ensures Exec(w, p', s', st, fuel) == Exec(w, p, s, st, fuel)
    decreases fuel, s, 4
  {
    if s.IfElse? && Drops(pass, s.test) && RewS(pass, s.alternate, s') {
      RemovableTestIsFalsy(w, p, s.test, st, fuel);
      PreserveS(pass, w, p, p', s.alternate, s', st, fuel);
    } else if s.If? && Drops(pass, s.test) && s' == Empty {
      RemovableTestIsFalsy(w, p, s.test, st, fuel);
    } else {
      SameShapeS(pass, w, p, p', s, s', st, fuel);
    }
  }

  lemma {:induction false} SameShapeS(
    pass: Pass, w: World, p: Program, p': Program, s: Stmt, s': Stmt, st: State, fuel: nat)
    requires RewP(pass, p, p') && SafeP(pass, p) && RewS(pass, s, s') && SafeS(pass, s)
    requires !Exec(w, p, s, st, fuel).1.russian
    requires !(s.IfElse? && Drops(pass, s.test) && RewS(pass, s.alternate, s'))
    requires !(s.If? && Drops(pass, s.test) && s' == Empty)
    ensures Exec(w, p', s', st, fuel) == Exec(w, p, s, st, fuel)
    decreases fuel, s, 3
  {
    match s {
      case Empty =>
      case ExprStmt(e) => PreserveE(pass, w, p, p', e, s'.e, st, fuel);
      case Declare(_, init) => PreserveE(pass, w, p, p', init, s'.init, st, fuel);
      case Block(body) => PreserveSs(pass, w, p, p', body, s'.body, st, fuel);
      case If(_, _) => SameIf(pass, w, p, p', s, s', st, fuel);
      case IfElse(_, _, _) => SameIfElse(pass, w, p, p', s, s', st, fuel);
      case While(test, loop) =>
        PreserveE(pass, w, p, p', test, s'.test, st, fuel);
        var (a, s1) := EvalE(w, p, test, st, fuel);
        if a.Val? && Truthy(a.v) {
          PreserveS(pass, w, p, p', loop, s'.loop, s1, fuel);
          var (c, s2) := Exec(w, p, loop, s1, fuel);
          if c.Normal? && fuel > 0 {
            PreserveS(pass, w, p, p', s, s', s2, fuel - 1);
          }
        }
      case Return(e) => PreserveE(pass, w, p, p', e, s'.e, st, fuel);
      case Throw(e) => PreserveE(pass, w, p, p', e, s'.e, st, fuel);
    }
  }

  /** An if the pass leaves standing; if its test is recognised the run does not enter it. */
  lemma {:induction false} SameIf(
    pass: Pass, w: World, p: Program, p': Program, s: Stmt, s': Stmt, st: State, fuel: nat)
    requires RewP(pass, p, p') && SafeP(pass, p) && SafeS(pass, s) && !Exec(w, p, s, st, fuel).1.russian
    requires s.If? && s'.If? && RewE(pass, s.test, s'.test) && RewS(pass, s.consequent, s'.consequent)
    ensures Exec(w, p', s', st, fuel) == Exec(w, p, s, st, fuel)
    decreases fuel, s, 2
  {
    PreserveE(pass, w, p, p', s.test, s'.test, st, fuel);
    var (a, s1) := EvalE(w, p, s.test, st, fuel);
    if Removable(s.test) {
      RemovableTestIsFalsy(w, p, s.test, st, fuel);
    } else if a.Val? && Truthy(a.v) {
      PreserveS(pass, w, p, p', s.consequent, s'.consequent, s1, fuel);
    }
  }

  lemma {:induction false} SameIfElse(
    pass: Pass, w: World, p: Program, p': Program, s: Stmt, s': Stmt, st: State, fuel: nat)
    requires RewP(pass, p, p') && SafeP(pass, p) && SafeS(pass, s) && !Exec(w, p, s, st, fuel).1.russian
    requires s.IfElse? && (s'.IfElse? || s'.If?)
    requires RewE(pass, s.test, s'.test) && RewS(pass, s.consequent, s'.consequent)
    requires if s'.IfElse? then RewS(pass, s.alternate, s'.alternate) else s.alternate.If? && Drops(pass, s.alternate.test)
    ensures Exec(w, p', s', st, fuel) == Exec(w, p, s, st, fuel)
    decreases fuel, s, 2
  {
    PreserveE(pass, w, p, p', s.test, s'.test, st, fuel);
    var (a, s1) := EvalE(w, p, s.test, st, fuel);
    if Removable(s.test) {
      RemovableTestIsFalsy(w, p, s.test, st, fuel);
    } else if a.Val? && Truthy(a.v) {
      PreserveS(pass, w, p, p', s.consequent, s'.consequent, s1, fuel);
    }
    if a.Val? && !Truthy(a.v) {
      if s'.IfElse? {
        PreserveS(pass, w, p, p', s.alternate, s'.alternate, s1, fuel);
      } else {
        RemovableTestIsFalsy(w, p, s.alternate.test, s1, fuel);
      }
    }
  }

  lemma {:induction false} PreserveSs(
    pass: Pass, w: World, p: Program, p': Program, ss: seq<Stmt>, ss': seq<Stmt>, st: State, fuel: nat)
    requires RewP(pass, p, p') && SafeP(pass, p) && RewSs(pass, ss, ss') && SafeSs(pass, ss)
    requires !ExecAll(w, p, ss, st, fuel).1.russian
    ensures ExecAll(w, p', ss', st, fuel) == ExecAll(w, p, ss, st, fuel)
    decreases fuel, ss, 0
  {
    if ss == [] {
    } else if ss[0].If? && Drops(pass, ss[0].test) && RewSs(pass, ss[1..], ss') {
      RemovableTestIsFalsy(w, p, ss[0].test, st, fuel);
      PreserveSs(pass, w, p, p', ss[1..], ss', st, fuel);
    } else {
      PreserveS(pass, w, p, p', ss[0], ss'[0], st, fuel);
      var (c, s1) := Exec(w, p, ss[0], st, fuel);
      if c.Normal? {
        PreserveSs(pass, w, p, p', ss[1..], ss'[1..], s1, fuel);
      }
    }
  }

  // ----- the two passes -----

  /**
   The pass over conditionals followed by the pass over ifs, each rewriting any choice of what it recognises, nested
   or not, in the code that runs and in every function and method it may call: if each pass starts from a safe text,
   the completion and the final state of a run that keeps the promise are unchanged, with any fuel.
   */
  lemma MeaningPreserved(
    w: World, p: Program, p1: Program, p2: Program, s: Stmt, s1: Stmt, s2: Stmt, st: State, fuel: nat)
    requires RewP(Conditionals, p, p1) && RewS(Conditionals, s, s1) && SafeP(Conditionals, p) && SafeS(Conditionals, s)
    requires RewP(Ifs, p1, p2) && RewS(Ifs, s1, s2) && SafeP(Ifs, p1) && SafeS(Ifs, s1)
    requires !Exec(w, p, s, st, fuel).1.russian
    ensures Exec(w, p2, s2, st, fuel) == Exec(w, p, s, st, fuel)
  {
    PreserveS(Conditionals, w, p, p1, s, s1, st, fuel);
    PreserveS(Ifs, w, p1, p2, s1, s2, st, fuel);
  }

  // ----- the passes that rewrite everything they can -----

  /** The first pass. */
  function PassOneE(e: Expr): Expr
    decreases e, 1
  {
    match e
    case Literal(_) => e
    case Ident(_) => e
    case Binary(op, left, right) => Binary(op, PassOneE(left), PassOneE(right))
    case And(left, right) => And(PassOneE(left), PassOneE(right))
    case Or(left, right) => Or(PassOneE(left), PassOneE(right))
    case Conditional(test, consequent, alternate) =>
      if IsLangCondition(test) then PassOneE(alternate)
      else Conditional(PassOneE(test), PassOneE(consequent), PassOneE(alternate))
    case Member(receiver, property, computed) =>
      Member(PassOneE(receiver), if computed then PassOneE(property) else property, computed)
    case Call(callee, args) => Call(PassOneE(callee), PassOneEs(args))
    case Assign(target, value) => Assign(target, PassOneE(value))
    case Compound(kind, parts) => Compound(kind, PassOneEs(parts))
  }

  function PassOneEs(es: seq<Expr>): seq<Expr>
    decreases es, 0
  {
    if es == [] then [] else [PassOneE(es[0])] + PassOneEs(es[1..])
  }

  function PassOneS(s: Stmt): Stmt
    decreases s, 1
  {
    match s
    case Empty => s
    case ExprStmt(e) => ExprStmt(PassOneE(e))
    case Declare(name, init) => Declare(name, PassOneE(init))
    case Block(body) => Block(PassOneSs(body))
    case If(test, consequent) => If(PassOneE(test), PassOneS(consequent))
    case IfElse(test, consequent, alternate) => IfElse(PassOneE(test), PassOneS(consequent), PassOneS(alternate))
    case While(test, loop) => While(PassOneE(test), PassOneS(loop))
    case Return(e) => Return(PassOneE(e))
    case Throw(e) => Throw(PassOneE(e))
  }

  function PassOneSs(ss: seq<Stmt>): seq<Stmt>
    decreases ss, 0
  {
    if ss == [] then [] else [PassOneS(ss[0])] + PassOneSs(ss[1..])
  }

  /** The second pass: the else branch takes the place of the if; an if without one disappears. */
  function PassTwoS(s: Stmt): Stmt
    decreases s, 1
  {
    match s
    case Block(body) => Block(PassTwoSs(body))
    case If(test, consequent) => if IsLangCondition(test) then Empty else If(test, PassTwoS(consequent))
    case IfElse(test, consequent, alternate) =>
      if IsLangCondition(test) then PassTwoS(alternate)
      else if alternate.If? && IsLangCondition(alternate.test) then If(test, PassTwoS(consequent))
      else IfElse(test, PassTwoS(consequent), PassTwoS(alternate))
    case While(test, loop) => While(test, PassTwoS(loop))
    case _ => s
  }

  function PassTwoSs(ss: seq<Stmt>): seq<Stmt>
    decreases ss, 0
  {
    if ss == [] then []
    else if ss[0].If? && IsLangCondition(ss[0].test) then PassTwoSs(ss[1..])
    else [PassTwoS(ss[0])] + PassTwoSs(ss[1..])
  }

  function Transform(p: Program): Program {
    map f | f in p :: Fun(p[f].params, PassTwoS(PassOneS(p[f].code)))
  }

  lemma {:induction false} SameE(e: Expr)
    ensures RewE(Ifs, e, e)
    decreases e, 1
  {
    match e {
      case Literal(_) =>
      case Ident(_) =>
      case Binary(_, left, right) => SameE(left); SameE(right);
      case And(left, right) => SameE(left); SameE(right);
      case Or(left, right) => SameE(left); SameE(right);
      case Conditional(test, consequent, alternate) => SameE(test); SameE(consequent); SameE(alternate);
      case Member(receiver, property, _) => SameE(receiver); SameE(property);
      case Call(callee, args) => SameE(callee); SameEs(args);
      case Assign(_, value) => SameE(value);
      case Compound(_, parts) => SameEs(parts);
    }
  }

  lemma {:induction false} SameEs(es: seq<Expr>)
    ensures RewEs(Ifs, es, es)
    decreases es, 0
  {
    if es == [] {
    } else {
      SameE(es[0]);
      SameEs(es[1..]);
    }
  }

  lemma {:induction false} PassOneRewritesE(e: Expr)
    ensures RewE(Conditionals, e, PassOneE(e))
    decreases e, 1
  {
    match e {
      case Literal(_) =>
      case Ident(_) =>
      case Binary(_, left, right) => PassOneRewritesE(left); PassOneRewritesE(right);
      case And(left, right) => PassOneRewritesE(left); PassOneRewritesE(right);
      case Or(left, right) => PassOneRewritesE(left); PassOneRewritesE(right);
      case Conditional(test, consequent, alternate) =>
        PassOneRewritesE(test);
        PassOneRewritesE(consequent);
        PassOneRewritesE(alternate);
      case Member(receiver, property, _) => PassOneRewritesE(receiver); PassOneRewritesE(property);
      case Call(callee, args) => PassOneRewritesE(callee); PassOneRewritesEs(args);
      case Assign(_, value) => PassOneRewritesE(value);
      case Compound(_, parts) => PassOneRewritesEs(parts);
    }
  }

  lemma {:induction false} PassOneRewritesEs(es: seq<Expr>)
    ensures RewEs(Conditionals, es, PassOneEs(es))
    decreases es, 0
  {
    if es == [] {
    } else {
      PassOneRewritesE(es[0]);
      PassOneRewritesEs(es[1..]);
      assert PassOneEs(es)[1..] == PassOneEs(es[1..]);
    }
  }

  lemma {:induction false} PassOneRewritesS(s: Stmt)
    ensures RewS(Conditionals, s, PassOneS(s))
    decreases s, 1
  {
    match s {
      case Empty =>
      case ExprStmt(e) => PassOneRewritesE(e);
      case Declare(_, init) => PassOneRewritesE(init);
      case Block(body) => PassOneRewritesSs(body);
      case If(test, consequent) => PassOneRewritesE(test); PassOneRewritesS(consequent);
      case IfElse(test, consequent, alternate) =>
        PassOneRewritesE(test);
        PassOneRewritesS(consequent);
        PassOneRewritesS(alternate);
      case While(test, loop) => PassOneRewritesE(test); PassOneRewritesS(loop);
      case Return(e) => PassOneRewritesE(e);
      case Throw(e) => PassOneRewritesE(e);
    }
  }

  lemma {:induction false} PassOneRewritesSs(ss: seq<Stmt>)
    ensures RewSs(Conditionals, ss, PassOneSs(ss))
    decreases ss, 0
  {
    if ss == [] {
    } else {
      PassOneRewritesS(ss[0]);
      PassOneRewritesSs(ss[1..]);
      assert PassOneSs(ss)[1..] == PassOneSs(ss[1..]);
    }
  }

  lemma {:induction false} PassTwoRewritesS(s: Stmt)
    ensures RewS(Ifs, s, PassTwoS(s))
    decreases s, 1
  {
    match s {
      case Empty =>
      case ExprStmt(e) => SameE(e);
      case Declare(_, init) => SameE(init);
      case Block(body) => PassTwoRewritesSs(body);
      case If(test, consequent) => SameE(test); PassTwoRewritesS(consequent);
      case IfElse(test, consequent, alternate) =>
        SameE(test);
        PassTwoRewritesS(consequent);
        PassTwoRewritesS(alternate);
      case While(test, loop) => SameE(test); PassTwoRewritesS(loop);
      case Return(e) => SameE(e);
      case Throw(e) => SameE(e);
    }
  }

  lemma {:induction false} PassTwoRewritesSs(ss: seq<Stmt>)
    ensures RewSs(Ifs, ss, PassTwoSs(ss))
    decreases ss, 0
  {
    if ss == [] {
    } else {
      PassTwoRewritesS(ss[0]);
      PassTwoRewritesSs(ss[1..]);
      if !(ss[0].If? && IsLangCondition(ss[0].test)) {
        assert PassTwoSs(ss)[1..] == PassTwoSs(ss[1..]);
      }
    }
  }

  function AfterPassOne(p: Program): Program { map f | f in p :: Fun(p[f].params, PassOneS(p[f].code)) }

  /** The check a caller can make of the text: safe for the first pass, and its result safe for the second. */
  predicate Safe(p: Program, s: Stmt) {
    && SafeP(Conditionals, p) && SafeS(Conditionals, s)
    && SafeP(Ifs, AfterPassOne(p)) && SafeS(Ifs, PassOneS(s))
  }

  /**
   The whole transformation, applied to the running code and to every function of a safe program, changes no run that
   keeps the promise.
   */
  lemma TransformPreserves(w: World, p: Program, s: Stmt, st: State, fuel: nat)
    requires Safe(p, s) && !Exec(w, p, s, st, fuel).1.russian
    ensures Exec(w, Transform(p), PassTwoS(PassOneS(s)), st, fuel) == Exec(w, p, s, st, fuel)
  {
    forall f | f in p
      ensures RewS(Conditionals, p[f].code, AfterPassOne(p)[f].code)
      ensures RewS(Ifs, AfterPassOne(p)[f].code, Transform(p)[f].code)
    {
      PassOneRewritesS(p[f].code);
      PassTwoRewritesS(PassOneS(p[f].code));
    }
    PassOneRewritesS(s);
    PassTwoRewritesS(PassOneS(s));
    MeaningPreserved(w, p, AfterPassOne(p), Transform(p), s, PassOneS(s), PassTwoS(PassOneS(s)), st, fuel);
  }

  // ----- exactly the safe ones: what the code rewrites beyond them changes some run that keeps the promise -----

  /** A variable other than the language variables, or a member path from one. */
  predicate Path(e: Expr)
    decreases e
  {
    (e.Ident? && e.name !in ["lang", "isRu"]) || (e.Member? && !e.computed && e.property.Ident? && Path(e.receiver))
  }

  predicate Plain(e: Expr) { e.Literal? || Path(e) }

  predicate AllPlain(es: seq<Expr>) { forall i :: 0 <= i < |es| ==> Plain(es[i]) }

  /** If the test calls something, it is a method of a path, with plain arguments. */
  predicate PlainTest(test: Expr) {
    test.Binary? && test.left.Call? ==>
      test.left.callee.Member? && Path(test.left.callee.receiver) && AllPlain(test.left.args)
  }

  /** The variables of a plain expression, call or test. */
  function Names(e: Expr): set<string> {
    match e
    case Ident(name) => {name}
    case Member(receiver, property, computed) => Names(receiver) + if computed then Names(property) else {}
    case Call(callee, args) => Names(callee) + AllNames(args)
    case Binary(_, left, right) => Names(left) + Names(right)
    case _ => {}
  }

  function AllNames(es: seq<Expr>): set<string> {
    if es == [] then {} else Names(es[0]) + AllNames(es[1..])
  }

  /** The language is English, and every other name is bound to an object from outside, which may be a function. */
  function English(names: set<string>): State {
    State(map n | n in names + {"lang", "isRu"} ::
            if n == "lang" then Str("en") else if n == "isRu" then Bool(false) else Obj(0),
          Outer(map[], 0), false)
  }

  /** Every property is an object, every method call answers `reply`, every other call answers undefined. */
  function Answering(reply: string): World {
    World(_ => "", _ => "", _ => None, (op, a, b) => Undefined, (a, n, o) => Obj(0), (k, vs, o) => (Val(Undefined), o),
          (r, n, o) => None, (r, n, vs, o) => (Val(Str(reply)), o), (f, vs, o) => (Val(Undefined), o))
  }

  lemma {:induction false} PlainRuns(w: World, e: Expr, st: State, fuel: nat)
    requires Plain(e)
    ensures EvalE(w, map[], e, st, fuel).0.Val? && EvalE(w, map[], e, st, fuel).1 == st
    decreases e
  {
    if e.Member? {
      PlainRuns(w, e.receiver, st, fuel);
    }
  }

  lemma {:induction false} AllPlainRun(w: World, es: seq<Expr>, st: State, fuel: nat)
    requires AllPlain(es)
    ensures EvalEs(w, map[], es, st, fuel).0.Vals? && EvalEs(w, map[], es, st, fuel).1 == st
  {
    if es == [] {
    } else {
      PlainRuns(w, es[0], st, fuel);
      AllPlainRun(w, es[1..], st, fuel);
    }
  }

  /** A method call on a path, under its own name or under the name in a variable, gets the world's answer. */
  lemma MethodAnswers(reply: string, e: Expr, st: State, fuel: nat)
    requires e.Call? && e.callee.Member? && Path(e.callee.receiver) && e.callee.property.Ident? && AllPlain(e.args)
    requires e.callee.computed && e.callee.property.name == "lang" ==> Read(map[], st, "lang") == Str("en")
    requires e.callee.computed ==> e.callee.property.name != "isRu"
    ensures EvalCall(Answering(reply), map[], e, st, fuel) == (Val(Str(reply)), st)
  {
    var w := Answering(reply);
    PlainRuns(w, e.callee.receiver, st, fuel);
    AllPlainRun(w, e.args, st, fuel);
    if e.callee.computed {
      assert EvalE(w, map[], e.callee.property, st, fuel) == (Val(Read(map[], st, e.callee.property.name)), st);
    }
    var (a, n, s1) := EvalMember(w, map[], e.callee, st, fuel);
    assert a.Val? && n.Val? && s1 == st;
    assert w.resolve(a.v, n.v, st.outer).None?;
  }

  /** A recognised computed call can answer 'ru' although the language is English. */
  lemma ComputedTestHolds(test: Expr, names: set<string>, fuel: nat)
    requires IsLangCondition(test) && ComputedTest(test) && PlainTest(test)
    ensures EvalE(Answering("ru"), map[], test, English(names), fuel) == (Val(Bool(true)), English(names))
  {
    MethodAnswers("ru", test.left, English(names), fuel);
  }

  lemma NameTestFails(test: Expr, names: set<string>, fuel: nat)
    requires IsLangCondition(test) && !(test.Binary? && test.left.Call?)
    ensures EvalE(Answering("en"), map[], test, English(names), fuel) == (Val(Bool(false)), English(names))
  {
  }

  lemma OtherTestFails(test: Expr, names: set<string>, fuel: nat)
    requires Removable(test) && PlainTest(test)
    ensures EvalE(Answering("en"), map[], test, English(names), fuel) == (Val(Bool(false)), English(names))
  {
    if test.Binary? && test.left.Call? {
      MethodAnswers("en", test.left, English(names), fuel);
    } else {
      NameTestFails(test, names, fuel);
    }
  }

  lemma {:induction false} PlainUnchanged(e: Expr)
    requires Plain(e)
    ensures PassOneE(e) == e && SafeE(e)
    decreases e
  {
    if e.Member? {
      PlainUnchanged(e.receiver);
    }
  }

  lemma {:induction false} AllPlainUnchanged(es: seq<Expr>)
    requires AllPlain(es)
    ensures PassOneEs(es) == es && SafeEs(es)
  {
    if es == [] {
    } else {
      PlainUnchanged(es[0]);
      AllPlainUnchanged(es[1..]);
    }
  }

  lemma PlainTestSafe(test: Expr)
    requires IsLangCondition(test) && PlainTest(test)
    ensures SafeE(test)
  {
    if test.Binary? && test.left.Call? {
      PlainUnchanged(test.left.callee.receiver);
      AllPlainUnchanged(test.left.args);
      assert SafeE(test.left.callee);
    }
  }

  /** The first pass leaves the meaning of the expression alone, in every safe program around it. */
  ghost predicate Kept(e: Expr) {
    forall w: World, p: Program, p': Program, st: State, fuel: nat ::
      RewP(Conditionals, p, p') && SafeP(Conditionals, p) && !EvalE(w, p, e, st, fuel).1.russian ==>
        EvalE(w, p', PassOneE(e), st, fuel) == EvalE(w, p, e, st, fuel)
  }

  /** The second pass leaves the meaning of the statement alone, in every safe program around it. */
  ghost predicate KeptS(s: Stmt) {
    forall w: World, p: Program, p': Program, st: State, fuel: nat ::
      RewP(Ifs, p, p') && SafeP(Ifs, p) && !Exec(w, p, s, st, fuel).1.russian ==>
        Exec(w, p', PassTwoS(s), st, fuel) == Exec(w, p, s, st, fuel)
  }

  lemma SafeKept(e: Expr)
    requires SafeE(e)
    ensures Kept(e)
  {
    PassOneRewritesE(e);
    forall w: World, p: Program, p': Program, st: State, fuel: nat |
      RewP(Conditionals, p, p') && SafeP(Conditionals, p) && !EvalE(w, p, e, st, fuel).1.russian
      ensures EvalE(w, p', PassOneE(e), st, fuel) == EvalE(w, p, e, st, fuel)
    {
      PreserveE(Conditionals, w, p, p', e, PassOneE(e), st, fuel);
    }
  }

  lemma SafeKeptS(s: Stmt)
    requires SafeS(Ifs, s)
    ensures KeptS(s)
  {
    PassTwoRewritesS(s);
    forall w: World, p: Program, p': Program, st: State, fuel: nat |
      RewP(Ifs, p, p') && SafeP(Ifs, p) && !Exec(w, p, s, st, fuel).1.russian
      ensures Exec(w, p', PassTwoS(s), st, fuel) == Exec(w, p, s, st, fuel)
    {
      PreserveS(Ifs, w, p, p', s, PassTwoS(s), st, fuel);
    }
  }

  /**
   A conditional between two values whose test is recognised, whatever path and arguments it calls: the first pass
   keeps its meaning in all runs that keep the promise if and only if the test is no computed call.
   */
  lemma ConditionalKeptIff(e: Expr)
    requires e.Conditional? && IsLangCondition(e.test) && PlainTest(e.test)
    requires e.consequent.Literal? && e.alternate.Literal? && e.consequent != e.alternate
    ensures Kept(e) <==> SafeE(e)
    ensures SafeE(e) <==> !ComputedTest(e.test)
  {
    PlainTestSafe(e.test);
    assert SafeE(e.alternate);
    if SafeE(e) {
      SafeKept(e);
    } else {
      var st := English(Names(e.test));
      ComputedTestHolds(e.test, Names(e.test), 0);
      var w := Answering("ru");
      assert EvalE(w, map[], e, st, 0) == (Val(e.consequent.v), st);
      assert EvalE(w, map[], PassOneE(e), st, 0) == (Val(e.alternate.v), st);
    }
  }

  /** The same for an if with an else branch and the second pass. */
  lemma IfKeptIff(s: Stmt)
    requires s.IfElse? && IsLangCondition(s.test) && PlainTest(s.test)
    requires s.consequent.Return? && s.consequent.e.Literal? && s.alternate.Return? && s.alternate.e.Literal?
    requires s.consequent != s.alternate
    ensures KeptS(s) <==> SafeS(Ifs, s)
    ensures SafeS(Ifs, s) <==> !ComputedTest(s.test)
  {
    assert SafeS(Ifs, s) <==> !ComputedTest(s.test);
    if SafeS(Ifs, s) {
      SafeKeptS(s);
    } else {
      var st := English(Names(s.test));
      ComputedTestHolds(s.test, Names(s.test), 0);
      var w := Answering("ru");
      assert Exec(w, map[], s.consequent, st, 0) == (Returned(s.consequent.e.v), st);
      assert Exec(w, map[], s.alternate, st, 0) == (Returned(s.alternate.e.v), st);
      assert PassTwoS(s) == s.alternate;
      assert Exec(w, map[], PassTwoS(s), st, 0) != Exec(w, map[], s, st, 0);
    }
  }

  /**
   A plain call of a conditional, `(test ? f : path)(arguments)`: the first pass keeps its meaning in all runs that
   keep the promise if and only if the path is a variable. Otherwise the call becomes a method call.
   */
  lemma CalleeKeptIff(e: Expr)
    requires e.Call? && e.callee.Conditional? && Removable(e.callee.test) && PlainTest(e.callee.test)
    requires Path(e.callee.alternate) && AllPlain(e.args)
    ensures Kept(e) <==> SafeE(e)
    ensures SafeE(e) <==> !e.callee.alternate.Member?
  {
    PlainTestSafe(e.callee.test);
    PlainUnchanged(e.callee.alternate);
    AllPlainUnchanged(e.args);
    assert SafeE(e.callee) && (EndsInMember(e.callee) <==> e.callee.alternate.Member?);
    if SafeE(e) {
      SafeKept(e);
    } else {
      CalleeChanges(e, Names(e.callee.test) + Names(e.callee.alternate) + AllNames(e.args));
    }
  }

  lemma CalleeChanges(e: Expr, names: set<string>)
    requires e.Call? && e.callee.Conditional? && Removable(e.callee.test) && PlainTest(e.callee.test)
    requires Path(e.callee.alternate) && AllPlain(e.args)
    requires e.callee.alternate.Member?
    ensures !Kept(e)
  {
    PlainUnchanged(e.callee.alternate);
    AllPlainUnchanged(e.args);
    var w, st := Answering("en"), English(names);
    OtherTestFails(e.callee.test, names, 0);
    PlainRuns(w, e.callee.alternate, st, 0);
    AllPlainRun(w, e.args, st, 0);
    assert EvalE(w, map[], e.callee, st, 0) == EvalE(w, map[], e.callee.alternate, st, 0);
    assert EvalCall(w, map[], e, st, 0) == (Val(Undefined), st);
    var direct := Call(e.callee.alternate, e.args);
    MethodAnswers("en", direct, st, 0);
    assert PassOneE(e) == direct;
    assert EvalE(w, map[], PassOneE(e), st, 0).0 == Val(Str("en"));
    assert EvalE(w, map[], PassOneE(e), st, 0) != EvalE(w, map[], e, st, 0);
  }
}
