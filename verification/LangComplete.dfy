/**
 What the transformation leaves behind: which tests are recognised, that no recognised `if` survives, and when a
 recognised conditional does.
 */
module LangComplete {
  import opened LangRewrite

  /** The recognised tests: a variable against 'ru' from either side, a method call against 'ru' from the left, `isRu`. */
  lemma RecognisedForms(op: string, name: string, callee: Expr, args: seq<Expr>)
    requires callee.Member? && callee.property.Ident?
    ensures var ru := Literal(Str("ru"));
            && (IsLangCondition(Binary(op, Ident(name), ru)) <==> op in ["===", "=="] && name in ["lang", "isRu"])
            && (IsLangCondition(Binary(op, ru, Ident(name))) <==> op in ["===", "=="] && name in ["lang", "isRu"])
            && (IsLangCondition(Binary(op, Call(callee, args), ru)) <==>
                  op in ["===", "=="] && callee.property.name in ["lang", "detectLang"])
            && !IsLangCondition(Binary(op, ru, Call(callee, args)))
            && (IsLangCondition(Ident(name)) <==> name == "isRu")
  {
  }

  // ----- recognised conditionals -----

  /** No conditional with a recognised test. */
  predicate NoTernary(e: Expr)
    decreases e
  {
    match e
    case Literal(_) => true
    case Ident(_) => true
    case Binary(_, left, right) => NoTernary(left) && NoTernary(right)
    case And(left, right) => NoTernary(left) && NoTernary(right)
    case Or(left, right) => NoTernary(left) && NoTernary(right)
    case Conditional(test, consequent, alternate) =>
      !IsLangCondition(test) && NoTernary(test) && NoTernary(consequent) && NoTernary(alternate)
    case Member(receiver, property, computed) => NoTernary(receiver) && (computed ==> NoTernary(property))
    case Call(callee, args) => NoTernary(callee) && NoTernaries(args)
    case Assign(_, value) => NoTernary(value)
    case Compound(_, parts) => NoTernaries(parts)
  }

  predicate NoTernaries(es: seq<Expr>)
    decreases es
  {
    es == [] || (NoTernary(es[0]) && NoTernaries(es[1..]))
  }

  /** What stands in the place of an expression once the recognised conditionals around it are replaced. */
  function Stripped(e: Expr): (r: Expr)
    ensures !(r.Conditional? && IsLangCondition(r.test))
  {
    if e.Conditional? && IsLangCondition(e.test) then Stripped(e.alternate) else e
  }

  /** The test is recognised once the conditionals inside it are replaced. */
  predicate BecomesTest(test: Expr) {
    var t := Stripped(test);
    if t.Binary? && t.op in ["===", "=="] then
      var left, right := Stripped(t.left), Stripped(t.right);
      || (LangIdent(left) && RuLiteral(right)) || (LangIdent(right) && RuLiteral(left))
      || (BecomesCall(left) && RuLiteral(right))
    else t == Ident("isRu")
  }

  predicate BecomesCall(e: Expr) {
    e.Call? &&
    var m := Stripped(e.callee);
    m.Member? &&
    var name := if m.computed then Stripped(m.property) else m.property;
    name.Ident? && name.name in ["lang", "detectLang"]
  }

  /** Some conditional is recognised only after those inside its test were replaced; removed branches do not count. */
  predicate Uncovers(e: Expr)
    decreases e
  {
    match e
    case Literal(_) => false
    case Ident(_) => false
    case Binary(_, left, right) => Uncovers(left) || Uncovers(right)
    case And(left, right) => Uncovers(left) || Uncovers(right)
    case Or(left, right) => Uncovers(left) || Uncovers(right)
    case Conditional(test, consequent, alternate) =>
      || Uncovers(alternate)
      || (!IsLangCondition(test) && (BecomesTest(test) || Uncovers(test) || Uncovers(consequent)))
    case Member(receiver, property, computed) => Uncovers(receiver) || (computed && Uncovers(property))
    case Call(callee, args) => Uncovers(callee) || AnyUncovers(args)
    case Assign(_, value) => Uncovers(value)
    case Compound(_, parts) => AnyUncovers(parts)
  }

  predicate AnyUncovers(es: seq<Expr>)
    decreases es
  {
    es != [] && (Uncovers(es[0]) || AnyUncovers(es[1..]))
  }

  lemma {:induction false} PassOneStripped(e: Expr)
    ensures PassOneE(e) == PassOneE(Stripped(e))
  {
    if e.Conditional? && IsLangCondition(e.test) {
      PassOneStripped(e.alternate);
    }
  }

  /** What is a simple expression afterwards was one already, under the replaced conditionals. */
  lemma SimpleAfter(e: Expr)
    ensures LangIdent(PassOneE(e)) <==> LangIdent(Stripped(e))
    ensures RuLiteral(PassOneE(e)) <==> RuLiteral(Stripped(e))
  {
    PassOneStripped(e);
  }

  lemma CallAfter(e: Expr)
    ensures LangCallShape(PassOneE(e)) <==> BecomesCall(Stripped(e))
  {
    PassOneStripped(e);
    var c := Stripped(e);
    if c.Call? {
      PassOneStripped(c.callee);
      var m := Stripped(c.callee);
      if m.Member? && m.computed {
        PassOneStripped(m.property);
      }
    }
  }

  lemma BecomesTestIff(test: Expr)
    ensures IsLangCondition(PassOneE(test)) <==> BecomesTest(test)
  {
    PassOneStripped(test);
    var t := Stripped(test);
    if t.Binary? {
      SimpleAfter(t.left);
      SimpleAfter(t.right);
      CallAfter(t.left);
    }
  }

  /** The first pass leaves no recognised conditional, if and only if it uncovers none. */
  lemma {:induction false} PassOneLeavesNoneIff(e: Expr)
    ensures NoTernary(PassOneE(e)) <==> !Uncovers(e)
    decreases e, 1
  {
    match e {
      case Literal(_) =>
      case Ident(_) =>
      case Binary(_, left, right) => PassOneLeavesNoneIff(left); PassOneLeavesNoneIff(right);
      case And(left, right) => PassOneLeavesNoneIff(left); PassOneLeavesNoneIff(right);
      case Or(left, right) => PassOneLeavesNoneIff(left); PassOneLeavesNoneIff(right);
      case Conditional(test, consequent, alternate) =>
        PassOneLeavesNoneIff(test);
        PassOneLeavesNoneIff(consequent);
        PassOneLeavesNoneIff(alternate);
        BecomesTestIff(test);
      case Member(receiver, property, _) => PassOneLeavesNoneIff(receiver); PassOneLeavesNoneIff(property);
      case Call(callee, args) => PassOneLeavesNoneIff(callee); PassOneLeavesNonesIff(args);
      case Assign(_, value) => PassOneLeavesNoneIff(value);
      case Compound(_, parts) => PassOneLeavesNonesIff(parts);
    }
  }

  lemma {:induction false} PassOneLeavesNonesIff(es: seq<Expr>)
    ensures NoTernaries(PassOneEs(es)) <==> !AnyUncovers(es)
    decreases es, 0
  {
    if es == [] {
    } else {
      PassOneLeavesNoneIff(es[0]);
      PassOneLeavesNonesIff(es[1..]);
      assert PassOneEs(es)[1..] == PassOneEs(es[1..]);
    }
  }

  /** It can: in `(lang === 'ru' ? x : isRu) ? a : b` the replaced inner conditional leaves the test `isRu`. */
  lemma UncoveringExample(x: Expr, a: Expr, b: Expr)
    ensures var inner := Conditional(Binary("===", Ident("lang"), Literal(Str("ru"))), x, Ident("isRu"));
            Uncovers(Conditional(inner, a, b)) && !NoTernary(PassOneE(Conditional(inner, a, b)))
  {
    var inner := Conditional(Binary("===", Ident("lang"), Literal(Str("ru"))), x, Ident("isRu"));
    assert Stripped(inner) == Ident("isRu");
    PassOneLeavesNoneIff(Conditional(inner, a, b));
  }

  // ----- statements -----

  predicate NoTernaryS(s: Stmt)
    decreases s
  {
    match s
    case Empty => true
    case ExprStmt(e) => NoTernary(e)
    case Declare(_, init) => NoTernary(init)
    case Block(body) => NoTernarySs(body)
    case If(test, consequent) => NoTernary(test) && NoTernaryS(consequent)
    case IfElse(test, consequent, alternate) => NoTernary(test) && NoTernaryS(consequent) && NoTernaryS(alternate)
    case While(test, loop) => NoTernary(test) && NoTernaryS(loop)
    case Return(e) => NoTernary(e)
    case Throw(e) => NoTernary(e)
  }

  predicate NoTernarySs(ss: seq<Stmt>)
    decreases ss
  {
    ss == [] || (NoTernaryS(ss[0]) && NoTernarySs(ss[1..]))
  }

  predicate UncoversS(s: Stmt)
    decreases s
  {
    match s
    case Empty => false
    case ExprStmt(e) => Uncovers(e)
    case Declare(_, init) => Uncovers(init)
    case Block(body) => AnyUncoversS(body)
    case If(test, consequent) => Uncovers(test) || UncoversS(consequent)
    case IfElse(test, consequent, alternate) => Uncovers(test) || UncoversS(consequent) || UncoversS(alternate)
    case While(test, loop) => Uncovers(test) || UncoversS(loop)
    case Return(e) => Uncovers(e)
    case Throw(e) => Uncovers(e)
  }

  predicate AnyUncoversS(ss: seq<Stmt>)
    decreases ss
  {
    ss != [] && (UncoversS(ss[0]) || AnyUncoversS(ss[1..]))
  }

  /** No `if` with a recognised test. */
  predicate NoIf(s: Stmt)
    decreases s
  {
    match s
    case Block(body) => NoIfs(body)
    case If(test, consequent) => !IsLangCondition(test) && NoIf(consequent)
    case IfElse(test, consequent, alternate) => !IsLangCondition(test) && NoIf(consequent) && NoIf(alternate)
    case While(_, loop) => NoIf(loop)
    case _ => true
  }

  predicate NoIfs(ss: seq<Stmt>)
    decreases ss
  {
    ss == [] || (NoIf(ss[0]) && NoIfs(ss[1..]))
  }

  lemma {:induction false} PassOneLeavesNoneSIff(s: Stmt)
    ensures NoTernaryS(PassOneS(s)) <==> !UncoversS(s)
    decreases s, 1
  {
    match s {
      case Empty =>
      case ExprStmt(e) => PassOneLeavesNoneIff(e);
      case Declare(_, init) => PassOneLeavesNoneIff(init);
      case Block(body) => PassOneLeavesNoneSsIff(body);
      case If(test, consequent) => PassOneLeavesNoneIff(test); PassOneLeavesNoneSIff(consequent);
      case IfElse(test, consequent, alternate) =>
        PassOneLeavesNoneIff(test);
        PassOneLeavesNoneSIff(consequent);
        PassOneLeavesNoneSIff(alternate);
      case While(test, loop) => PassOneLeavesNoneIff(test); PassOneLeavesNoneSIff(loop);
      case Return(e) => PassOneLeavesNoneIff(e);
      case Throw(e) => PassOneLeavesNoneIff(e);
    }
  }

  lemma {:induction false} PassOneLeavesNoneSsIff(ss: seq<Stmt>)
    ensures NoTernarySs(PassOneSs(ss)) <==> !AnyUncoversS(ss)
    decreases ss, 0
  {
    if ss == [] {
    } else {
      PassOneLeavesNoneSIff(ss[0]);
      PassOneLeavesNoneSsIff(ss[1..]);
      assert PassOneSs(ss)[1..] == PassOneSs(ss[1..]);
    }
  }

  /** The second pass leaves no recognised `if`, whatever the program, and brings no conditional. */
  lemma {:induction false} PassTwoLeavesNone(s: Stmt)
    ensures NoIf(PassTwoS(s))
    ensures NoTernaryS(s) ==> NoTernaryS(PassTwoS(s))
    decreases s, 1
  {
    match s {
      case Block(body) => PassTwoLeavesNones(body);
      case If(_, consequent) => PassTwoLeavesNone(consequent);
      case IfElse(_, consequent, alternate) => PassTwoLeavesNone(consequent); PassTwoLeavesNone(alternate);
      case While(_, loop) => PassTwoLeavesNone(loop);
      case _ =>
    }
  }

  lemma {:induction false} PassTwoLeavesNones(ss: seq<Stmt>)
    ensures NoIfs(PassTwoSs(ss))
    ensures NoTernarySs(ss) ==> NoTernarySs(PassTwoSs(ss))
    decreases ss, 0
  {
    if ss == [] {
    } else {
      PassTwoLeavesNones(ss[1..]);
      PassTwoLeavesNone(ss[0]);
      if !(ss[0].If? && IsLangCondition(ss[0].test)) {
        assert PassTwoSs(ss)[1..] == PassTwoSs(ss[1..]);
      }
    }
  }

  /** Of the whole program: no recognised `if` is left, and no recognised conditional unless one was uncovered. */
  lemma TransformLeavesNone(p: Program, f: string)
    requires f in p
    ensures f in Transform(p) && Transform(p)[f].params == p[f].params
    ensures NoIf(Transform(p)[f].code)
    ensures !UncoversS(p[f].code) ==> NoTernaryS(Transform(p)[f].code)
  {
    PassOneLeavesNoneSIff(p[f].code);
    PassTwoLeavesNone(PassOneS(p[f].code));
  }
}
