/**
 * Two small programs followed callback by callback, in the order the
 * parser issues the callbacks, with the state after each one and the code
 * the whole run emits.
 */
module Scenarios {
  import opened Wrappers
  import opened Decimal
  import opened Declarators
  import opened Symbols
  import opened SymbolTable
  import opened CodeGenerator
  import opened Semantics
  import opened Programs

  // ---------------------------------------------------------------------
  // { int x; x = 5; cout << x; }
  // ---------------------------------------------------------------------

  const X: Symbol := Symbol("x", 'i', 0, 1)
  const XRec: ExpRec := ExpRec('i', 0, "", false)
  const FiveRec: ExpRec := ExpRec('i', -4, "", false)

  const AssignAndPrintProgram: seq<Action> := [
    EnterBlockAction,
    Declare("int", "x"),
    Reference("x"),
    LitNum("5"),
    Assign(XRec, FiveRec),
    Reference("x"),
    Cout(XRec),
    ExitBlockAction
  ]

  const AssignAndPrintOuts: seq<Out> :=
    [Nothing, Nothing, Record(XRec), Record(FiveRec), Nothing, Record(XRec), Nothing, Nothing]

  const AssignAndPrintCode: seq<Instr> := [
    Li(T(0), "5"), Sw(T(0), Stack(-4)),
    Lw(T(1), Stack(-4)), Sw(T(1), Stack(0)),
    Lw(A0, Stack(0)), Li(V0, "1"), Syscall
  ]

  const AssignAndPrintText: seq<string> := [
    "li $t0, 5", "sw $t0, -4($sp)",
    "lw $t1, -4($sp)", "sw $t1, 0($sp)",
    "lw $a0, 0($sp)", "li $v0, 1", "syscall"
  ]

  const A1: Ctx := Ctx(Table([map[]], [], 0), Gen(0, [], []), 0, 0)
  const A2: Ctx := Ctx(Table([map["x" := X]], [], 0), Gen(-4, [], []), 0, 0)
  const A3: Ctx := A2.(gen := Gen(-8, AssignAndPrintCode[..2], []))
  const A5: Ctx := A3.(gen := A3.gen.(code := AssignAndPrintCode[..4]))
  const A6: Ctx := A5.(gen := A5.gen.(code := AssignAndPrintCode))
  const A7: Ctx := A6.(table := Table([], [map["x" := X]], 0))
  const AssignAndPrintStates: seq<Ctx> := [Start, A1, A2, A2, A3, A5, A5, A6, A7]

  lemma EnterOuterBlock() ensures Apply(Start, EnterBlockAction) == Done(A1, Nothing) {}

  lemma DeclareX() ensures Apply(A1, Declare("int", "x")) == Done(A2, Nothing)
  {
    assert ParseDeclarator("x") == Ok(("x", 1)) by { assert !IsArray("x"); }
  }

  lemma LoadFive() ensures Apply(A2, LitNum("5")) == Done(A3, Record(FiveRec)) {}

  /** Referring to `x` emits nothing and hands back its record, before and after the assignment. */
  lemma ReferenceX(c: Ctx)
    requires c.table == A2.table
    ensures Apply(c, Reference("x")) == Done(c, Record(XRec))
  {
    assert ParseReference("x") == ("x", Plain);
    assert FindAll(c.table, "x") == Some(X);
  }

  lemma AssignFive() ensures Apply(A3, Assign(XRec, FiveRec)) == Done(A5, Nothing) {}

  lemma PrintX() ensures Apply(A5, Cout(XRec)) == Done(A6, Nothing) {}

  lemma LeaveOuterBlock() ensures Apply(A6, ExitBlockAction) == Done(A7, Nothing) {}

  lemma AssignAndPrintStep(i: nat)
    requires i < |AssignAndPrintProgram|
    ensures NeedsScope(AssignAndPrintProgram[i]) ==> HasScope(AssignAndPrintStates[i].table)
    ensures Apply(AssignAndPrintStates[i], AssignAndPrintProgram[i])
      == Done(AssignAndPrintStates[i + 1], AssignAndPrintOuts[i])
  {
    if i == 0 { AssignAndPrintStep0(i); }
    else if i == 1 { AssignAndPrintStep1(i); }
    else if i == 2 { AssignAndPrintStep2(i); }
    else if i == 3 { AssignAndPrintStep3(i); }
    else if i == 4 { AssignAndPrintStep4(i); }
    else if i == 5 { AssignAndPrintStep5(i); }
    else if i == 6 { AssignAndPrintStep6(i); }
    else { AssignAndPrintStep7(i); }
  }

  // Each step fact restated at its index in the run.

  lemma AssignAndPrintStep0(i: nat)
    requires i == 0
    ensures NeedsScope(AssignAndPrintProgram[i]) ==> HasScope(AssignAndPrintStates[i].table)
    ensures Apply(AssignAndPrintStates[i], AssignAndPrintProgram[i]) == Done(AssignAndPrintStates[i + 1], AssignAndPrintOuts[i])
  { EnterOuterBlock(); }

  lemma AssignAndPrintStep1(i: nat)
    requires i == 1
    ensures NeedsScope(AssignAndPrintProgram[i]) ==> HasScope(AssignAndPrintStates[i].table)
    ensures Apply(AssignAndPrintStates[i], AssignAndPrintProgram[i]) == Done(AssignAndPrintStates[i + 1], AssignAndPrintOuts[i])
  { DeclareX(); }

  lemma AssignAndPrintStep2(i: nat)
    requires i == 2
    ensures NeedsScope(AssignAndPrintProgram[i]) ==> HasScope(AssignAndPrintStates[i].table)
    ensures Apply(AssignAndPrintStates[i], AssignAndPrintProgram[i]) == Done(AssignAndPrintStates[i + 1], AssignAndPrintOuts[i])
  { ReferenceX(A2); }

  lemma AssignAndPrintStep3(i: nat)
    requires i == 3
    ensures NeedsScope(AssignAndPrintProgram[i]) ==> HasScope(AssignAndPrintStates[i].table)
    ensures Apply(AssignAndPrintStates[i], AssignAndPrintProgram[i]) == Done(AssignAndPrintStates[i + 1], AssignAndPrintOuts[i])
  { LoadFive(); }

  lemma AssignAndPrintStep4(i: nat)
    requires i == 4
    ensures NeedsScope(AssignAndPrintProgram[i]) ==> HasScope(AssignAndPrintStates[i].table)
    ensures Apply(AssignAndPrintStates[i], AssignAndPrintProgram[i]) == Done(AssignAndPrintStates[i + 1], AssignAndPrintOuts[i])
  { AssignFive(); }

  lemma AssignAndPrintStep5(i: nat)
    requires i == 5
    ensures NeedsScope(AssignAndPrintProgram[i]) ==> HasScope(AssignAndPrintStates[i].table)
    ensures Apply(AssignAndPrintStates[i], AssignAndPrintProgram[i]) == Done(AssignAndPrintStates[i + 1], AssignAndPrintOuts[i])
  { ReferenceX(A5); }

  lemma AssignAndPrintStep6(i: nat)
    requires i == 6
    ensures NeedsScope(AssignAndPrintProgram[i]) ==> HasScope(AssignAndPrintStates[i].table)
    ensures Apply(AssignAndPrintStates[i], AssignAndPrintProgram[i]) == Done(AssignAndPrintStates[i + 1], AssignAndPrintOuts[i])
  { PrintX(); }

  lemma AssignAndPrintStep7(i: nat)
    requires i == 7
    ensures NeedsScope(AssignAndPrintProgram[i]) ==> HasScope(AssignAndPrintStates[i].table)
    ensures Apply(AssignAndPrintStates[i], AssignAndPrintProgram[i]) == Done(AssignAndPrintStates[i + 1], AssignAndPrintOuts[i])
  { LeaveOuterBlock(); }

  lemma LoadFiveText() ensures Render(Li(T(0), "5")) == "li $t0, 5" { SmallNumerals(); }
  lemma StoreFiveText() ensures Render(Sw(T(0), Stack(-4))) == "sw $t0, -4($sp)" { SmallNumerals(); }
  lemma CopyFiveText() ensures Render(Lw(T(1), Stack(-4))) == "lw $t1, -4($sp)" { SmallNumerals(); }
  lemma StoreXText() ensures Render(Sw(T(1), Stack(0))) == "sw $t1, 0($sp)" { SmallNumerals(); }
  lemma LoadXText() ensures Render(Lw(A0, Stack(0))) == "lw $a0, 0($sp)" { SmallNumerals(); }
  lemma PrintIntText() ensures Render(Li(V0, "1")) == "li $v0, 1" { }

  /**
   * The whole run: `x` gets offset 0 and the literal the next word; the
   * records handed back to the parser are `x`'s, the literal's and `x`'s
   * again; the
   * block's scope is retired holding `x`; and the body, as text, loads 5,
   * stores it into `x`, then prints `x` with service 1.
   */
  lemma AssignAndPrint()
    ensures WellScoped(0, AssignAndPrintProgram)
    ensures Run(Start, AssignAndPrintProgram).Done?
    ensures Run(Start, AssignAndPrintProgram).value == AssignAndPrintOuts
    ensures Run(Start, AssignAndPrintProgram).ctx.table == Table([], [map["x" := Symbol("x", 'i', 0, 1)]], 0)
    ensures RenderAll(Run(Start, AssignAndPrintProgram).ctx.gen.code) == AssignAndPrintText
  {
    RunAssignAndPrint();
    AssignAndPrintRendered();
  }

  lemma RunAssignAndPrint()
    ensures WellScoped(0, AssignAndPrintProgram)
    ensures Run(Start, AssignAndPrintProgram) == Done(A7, AssignAndPrintOuts)
  {
    forall i | 0 <= i < |AssignAndPrintProgram|
      ensures NeedsScope(AssignAndPrintProgram[i]) ==> HasScope(AssignAndPrintStates[i].table)
      ensures Apply(AssignAndPrintStates[i], AssignAndPrintProgram[i])
        == Done(AssignAndPrintStates[i + 1], AssignAndPrintOuts[i])
    {
      AssignAndPrintStep(i);
    }
    RunOfSteps(AssignAndPrintStates, AssignAndPrintProgram, AssignAndPrintOuts);
  }

  lemma AssignAndPrintRendered()
    ensures RenderAll(A7.gen.code) == AssignAndPrintText
  {
    LoadFiveText(); StoreFiveText(); CopyFiveText(); StoreXText(); LoadXText(); PrintIntText();
  }

  // ---------------------------------------------------------------------
  // { int x; int y; if (x > 0) { y = 1; } }
  // ---------------------------------------------------------------------

  const Y: Symbol := Symbol("y", 'i', -4, 1)
  const Cond: Symbol := Symbol("t#0", 'i', -12, 0)
  const YRec: ExpRec := ExpRec('i', -4, "", false)
  const ZeroRec: ExpRec := ExpRec('i', -8, "", false)
  const CondRec: ExpRec := ExpRec('i', -12, "", false)
  const OneRec: ExpRec := ExpRec('i', -16, "", false)

  const ConditionalProgram: seq<Action> := [
    EnterBlockAction,
    Declare("int", "x"),
    Declare("int", "y"),
    Reference("x"),
    LitNum("0"),
    Binary(XRec, ZeroRec, '>'),
    BranchOnZero(CondRec),
    EnterBlockAction,
    Reference("y"),
    LitNum("1"),
    Assign(YRec, OneRec),
    ExitBlockAction,
    PlaceLabel("label0"),
    ExitBlockAction
  ]

  const ConditionalOuts: seq<Out> := [
    Nothing, Nothing, Nothing, Record(XRec), Record(ZeroRec), Record(CondRec), LabelOut("label0"),
    Nothing, Record(YRec), Record(OneRec), Nothing, Nothing, LabelOut("label0"), Nothing
  ]

  /** Test `x > 0` into `t#0`, skip the inner block when it is zero, store 1 into `y`. */
  const ConditionalCode: seq<Instr> := [
    Li(T(0), "0"), Sw(T(0), Stack(-8)),
    Lw(T(1), Stack(0)), Lw(T(2), Stack(-8)), Alu(Sgt, T(0), T(1), T(2)), Sw(T(0), Stack(-12)),
    Lw(T(0), Stack(-12)), Beqz(T(0), "label0"),
    Li(T(0), "1"), Sw(T(0), Stack(-16)),
    Lw(T(1), Stack(-16)), Sw(T(1), Stack(-4)),
    LabelDef("label0")
  ]

  const OuterScope: Scope := map["x" := X, "y" := Y, "t#0" := Cond]

  const B2: Ctx := A1.(table := Table([map["x" := X]], [], 0), gen := Gen(-4, [], []))
  const B3: Ctx := B2.(table := Table([map["x" := X, "y" := Y]], [], 0), gen := Gen(-8, [], []))
  const B5: Ctx := B3.(gen := Gen(-12, ConditionalCode[..2], []))
  const B6: Ctx := B5.(table := Table([OuterScope], [], 1), gen := Gen(-16, ConditionalCode[..6], []))
  const B7: Ctx := B6.(labels := 1, gen := B6.gen.(code := ConditionalCode[..8]))
  const B8: Ctx := B7.(table := Table([OuterScope, map[]], [], 1))
  const B10: Ctx := B8.(gen := Gen(-20, ConditionalCode[..10], []))
  const B11: Ctx := B10.(gen := B10.gen.(code := ConditionalCode[..12]))
  const B12: Ctx := B11.(table := Table([OuterScope], [map[]], 1))
  const B13: Ctx := B12.(gen := B12.gen.(code := ConditionalCode))
  const B14: Ctx := B13.(table := Table([], [map[], OuterScope], 1))
  const ConditionalStates: seq<Ctx> := [Start, A1, B2, B3, B3, B5, B6, B7, B8, B8, B10, B11, B12, B13, B14]

  lemma DeclareOuterX() ensures Apply(A1, Declare("int", "x")) == Done(B2, Nothing)
  {
    assert ParseDeclarator("x") == Ok(("x", 1)) by { assert !IsArray("x"); }
  }

  lemma DeclareY() ensures Apply(B2, Declare("int", "y")) == Done(B3, Nothing)
  {
    assert ParseDeclarator("y") == Ok(("y", 1)) by { assert !IsArray("y"); }
  }

  lemma ReferenceOuterX() ensures Apply(B3, Reference("x")) == Done(B3, Record(XRec))
  {
    assert ParseReference("x") == ("x", Plain);
    assert FindAll(B3.table, "x") == Some(X);
  }

  lemma LoadZero() ensures Apply(B3, LitNum("0")) == Done(B5, Record(ZeroRec)) {}

  lemma TempForCondition() ensures GetTemp(B5.table, 'i', -12) == (B6.table, Cond)
  {
    assert GenName(TempName, 0) == "t#0";
  }

  lemma ResolveCondition(c: Ctx)
    requires c.table == B6.table
    ensures CreateExpRecForSymbol(c, "t#0") == Done(c, CondRec)
  {
    assert ParseReference("t#0") == ("t#0", Plain) by { assert !IsArray("t#0"); }
    assert FindAll(c.table, "t#0") == Some(Cond);
  }

  lemma ComparisonCode()
    ensures ExprOP(B5.(table := B6.table, gen := B5.gen.(offset := -16)), XRec, ZeroRec, -12, '>') == B6
  {
  }

  lemma CompareWithZero() ensures Apply(B5, Binary(XRec, ZeroRec, '>')) == Done(B6, Record(CondRec))
  {
    TempForCondition();
    ComparisonCode();
    ResolveCondition(B6);
  }

  lemma BranchOverBody() ensures Apply(B6, BranchOnZero(CondRec)) == Done(B7, LabelOut("label0"))
  {
    assert LabelName(0) == "label0";
  }

  lemma EnterInnerBlock() ensures Apply(B7, EnterBlockAction) == Done(B8, Nothing) {}

  lemma ReferenceY() ensures Apply(B8, Reference("y")) == Done(B8, Record(YRec))
  {
    assert ParseReference("y") == ("y", Plain);
    assert "y" !in B8.table.active[1];
    assert "y" in OuterScope && OuterScope["y"] == Y;
    assert FindIn(B8.table.active, 1, "y") == Some(Y);
  }

  lemma LoadOne() ensures Apply(B8, LitNum("1")) == Done(B10, Record(OneRec)) {}

  lemma AssignOne() ensures Apply(B10, Assign(YRec, OneRec)) == Done(B11, Nothing) {}

  lemma LeaveInnerBlock() ensures Apply(B11, ExitBlockAction) == Done(B12, Nothing) {}

  lemma PlaceExitLabel() ensures Apply(B12, PlaceLabel("label0")) == Done(B13, LabelOut("label0")) {}

  lemma LeaveConditionalBlock() ensures Apply(B13, ExitBlockAction) == Done(B14, Nothing) {}

  lemma ConditionalStep(i: nat)
    requires i < |ConditionalProgram|
    ensures NeedsScope(ConditionalProgram[i]) ==> HasScope(ConditionalStates[i].table)
    ensures Apply(ConditionalStates[i], ConditionalProgram[i]) == Done(ConditionalStates[i + 1], ConditionalOuts[i])
  {
    if i < 4 { DeclarationStep(i); }
    else if i < 6 { ConditionStep(i); }
    else if i < 9 { BranchStep(i); }
    else if i < 11 { BodyStep(i); }
    else { ClosingStep(i); }
  }

  lemma DeclarationStep(i: nat)
    requires i < 4
    ensures NeedsScope(ConditionalProgram[i]) ==> HasScope(ConditionalStates[i].table)
    ensures Apply(ConditionalStates[i], ConditionalProgram[i]) == Done(ConditionalStates[i + 1], ConditionalOuts[i])
  {
    if i == 0 { ConditionalStep0(i); }
    else if i == 1 { ConditionalStep1(i); }
    else if i == 2 { ConditionalStep2(i); }
    else { ConditionalStep3(i); }
  }

  lemma ConditionStep(i: nat)
    requires 4 <= i < 6
    ensures NeedsScope(ConditionalProgram[i]) ==> HasScope(ConditionalStates[i].table)
    ensures Apply(ConditionalStates[i], ConditionalProgram[i]) == Done(ConditionalStates[i + 1], ConditionalOuts[i])
  {
    if i == 4 { ConditionalStep4(i); }
    else { ConditionalStep5(i); }
  }

  lemma BranchStep(i: nat)
    requires 6 <= i < 9
    ensures NeedsScope(ConditionalProgram[i]) ==> HasScope(ConditionalStates[i].table)
    ensures Apply(ConditionalStates[i], ConditionalProgram[i]) == Done(ConditionalStates[i + 1], ConditionalOuts[i])
  {
    if i == 6 { ConditionalStep6(i); }
    else if i == 7 { ConditionalStep7(i); }
    else { ConditionalStep8(i); }
  }

  lemma BodyStep(i: nat)
    requires 9 <= i < 11
    ensures NeedsScope(ConditionalProgram[i]) ==> HasScope(ConditionalStates[i].table)
    ensures Apply(ConditionalStates[i], ConditionalProgram[i]) == Done(ConditionalStates[i + 1], ConditionalOuts[i])
  {
    if i == 9 { ConditionalStep9(i); }
    else { ConditionalStep10(i); }
  }

  lemma ClosingStep(i: nat)
    requires 11 <= i < 14
    ensures NeedsScope(ConditionalProgram[i]) ==> HasScope(ConditionalStates[i].table)
    ensures Apply(ConditionalStates[i], ConditionalProgram[i]) == Done(ConditionalStates[i + 1], ConditionalOuts[i])
  {
    if i == 11 { ConditionalStep11(i); }
    else if i == 12 { ConditionalStep12(i); }
    else { ConditionalStep13(i); }
  }

  // Each step fact restated at its index in the run.

  lemma ConditionalStep0(i: nat)
    requires i == 0
    ensures NeedsScope(ConditionalProgram[i]) ==> HasScope(ConditionalStates[i].table)
    ensures Apply(ConditionalStates[i], ConditionalProgram[i]) == Done(ConditionalStates[i + 1], ConditionalOuts[i])
  { EnterOuterBlock(); }

  lemma ConditionalStep1(i: nat)
    requires i == 1
    ensures NeedsScope(ConditionalProgram[i]) ==> HasScope(ConditionalStates[i].table)
    ensures Apply(ConditionalStates[i], ConditionalProgram[i]) == Done(ConditionalStates[i + 1], ConditionalOuts[i])
  { DeclareOuterX(); }

  lemma ConditionalStep2(i: nat)
    requires i == 2
    ensures NeedsScope(ConditionalProgram[i]) ==> HasScope(ConditionalStates[i].table)
    ensures Apply(ConditionalStates[i], ConditionalProgram[i]) == Done(ConditionalStates[i + 1], ConditionalOuts[i])
  { DeclareY(); }

  lemma ConditionalStep3(i: nat)
    requires i == 3
    ensures NeedsScope(ConditionalProgram[i]) ==> HasScope(ConditionalStates[i].table)
    ensures Apply(ConditionalStates[i], ConditionalProgram[i]) == Done(ConditionalStates[i + 1], ConditionalOuts[i])
  { ReferenceOuterX(); }

  lemma ConditionalStep4(i: nat)
    requires i == 4
    ensures NeedsScope(ConditionalProgram[i]) ==> HasScope(ConditionalStates[i].table)
    ensures Apply(ConditionalStates[i], ConditionalProgram[i]) == Done(ConditionalStates[i + 1], ConditionalOuts[i])
  { LoadZero(); }

  lemma ConditionalStep5(i: nat)
    requires i == 5
    ensures NeedsScope(ConditionalProgram[i]) ==> HasScope(ConditionalStates[i].table)
    ensures Apply(ConditionalStates[i], ConditionalProgram[i]) == Done(ConditionalStates[i + 1], ConditionalOuts[i])
  { CompareWithZero(); }

  lemma ConditionalStep6(i: nat)
    requires i == 6
    ensures NeedsScope(ConditionalProgram[i]) ==> HasScope(ConditionalStates[i].table)
    ensures Apply(ConditionalStates[i], ConditionalProgram[i]) == Done(ConditionalStates[i + 1], ConditionalOuts[i])
  { BranchOverBody(); }

  lemma ConditionalStep7(i: nat)
    requires i == 7
    ensures NeedsScope(ConditionalProgram[i]) ==> HasScope(ConditionalStates[i].table)
    ensures Apply(ConditionalStates[i], ConditionalProgram[i]) == Done(ConditionalStates[i + 1], ConditionalOuts[i])
  { EnterInnerBlock(); }

  lemma ConditionalStep8(i: nat)
    requires i == 8
    ensures NeedsScope(ConditionalProgram[i]) ==> HasScope(ConditionalStates[i].table)
    ensures Apply(ConditionalStates[i], ConditionalProgram[i]) == Done(ConditionalStates[i + 1], ConditionalOuts[i])
  { ReferenceY(); }

  lemma ConditionalStep9(i: nat)
    requires i == 9
    ensures NeedsScope(ConditionalProgram[i]) ==> HasScope(ConditionalStates[i].table)
    ensures Apply(ConditionalStates[i], ConditionalProgram[i]) == Done(ConditionalStates[i + 1], ConditionalOuts[i])
  { LoadOne(); }

  lemma ConditionalStep10(i: nat)
    requires i == 10
    ensures NeedsScope(ConditionalProgram[i]) ==> HasScope(ConditionalStates[i].table)
    ensures Apply(ConditionalStates[i], ConditionalProgram[i]) == Done(ConditionalStates[i + 1], ConditionalOuts[i])
  { AssignOne(); }

  lemma ConditionalStep11(i: nat)
    requires i == 11
    ensures NeedsScope(ConditionalProgram[i]) ==> HasScope(ConditionalStates[i].table)
    ensures Apply(ConditionalStates[i], ConditionalProgram[i]) == Done(ConditionalStates[i + 1], ConditionalOuts[i])
  { LeaveInnerBlock(); }

  lemma ConditionalStep12(i: nat)
    requires i == 12
    ensures NeedsScope(ConditionalProgram[i]) ==> HasScope(ConditionalStates[i].table)
    ensures Apply(ConditionalStates[i], ConditionalProgram[i]) == Done(ConditionalStates[i + 1], ConditionalOuts[i])
  { PlaceExitLabel(); }

  lemma ConditionalStep13(i: nat)
    requires i == 13
    ensures NeedsScope(ConditionalProgram[i]) ==> HasScope(ConditionalStates[i].table)
    ensures Apply(ConditionalStates[i], ConditionalProgram[i]) == Done(ConditionalStates[i + 1], ConditionalOuts[i])
  { LeaveConditionalBlock(); }

  /**
   * The whole run: the comparison lands in the temporary `t#0`, the branch
   * skips to `label0`, which is placed after the inner block; the
   * temporary stays in the outer scope, which is retired last.
   */
  lemma Conditional()
    ensures WellScoped(0, ConditionalProgram)
    ensures Run(Start, ConditionalProgram).Done?
    ensures Run(Start, ConditionalProgram).value == ConditionalOuts
    ensures Run(Start, ConditionalProgram).ctx.gen.code == ConditionalCode
    ensures Run(Start, ConditionalProgram).ctx.table.retired
      == [map[], map["x" := Symbol("x", 'i', 0, 1), "y" := Symbol("y", 'i', -4, 1), "t#0" := Symbol("t#0", 'i', -12, 0)]]
    ensures Run(Start, ConditionalProgram).ctx.labels == 1
  {
    forall i | 0 <= i < |ConditionalProgram|
      ensures NeedsScope(ConditionalProgram[i]) ==> HasScope(ConditionalStates[i].table)
      ensures Apply(ConditionalStates[i], ConditionalProgram[i]) == Done(ConditionalStates[i + 1], ConditionalOuts[i])
    {
      ConditionalStep(i);
    }
    RunOfSteps(ConditionalStates, ConditionalProgram, ConditionalOuts);
  }

  /** The numerals the scenarios print. */
  lemma SmallNumerals()
    ensures NatToString(0) == "0" && NatToString(1) == "1" && NatToString(4) == "4"
  {
  }
}
