/**
 * The semantic actions the parser calls (parserUtils.cpp): declarations,
 * blocks, expression records, expressions, assignment, input/output and
 * the label helpers of `if` and `while`.
 *
 * The source keeps its state in two globals (the code generator and the
 * symbol table) and two function-local statics (the label counter of
 * `newLabel` and the register index of `genCodeAddSPAndOffset`). The model
 * threads all four through a `Ctx`. An action that throws returns `Abort`
 * carrying the context at the throw point: whatever the action did before
 * throwing stays done.
 */
module Semantics {
  import opened Wrappers
  import opened Errors
  import opened Decimal
  import opened Declarators
  import opened Symbols
  import opened SymbolTable
  import opened CodeGenerator

  /**
   * `ExpressionRecord`: the type of a value, the stack offset holding it
   * (or, when `indirect`, holding its offset from `$sp`), and the data label of a
   * string literal.
   */
  datatype ExpRec = ExpRec(ty: char, loc: int, locLabel: string, indirect: bool)

  /** Position in the rotation `$t3` … `$t9` of `genCodeAddSPAndOffset`. */
  type RegIndex = k: int | 0 <= k < 7

  datatype Ctx = Ctx(table: Table, gen: Gen, labels: nat, regIndex: RegIndex)

  /** Program start: empty table, cursor 0, both statics 0. */
  const Start: Ctx := Ctx(SymbolTable.Empty, CodeGenerator.Initial, 0, 0)

  /** The outcome of an action: its value, or the error it throws. */
  datatype Step<T> = Done(ctx: Ctx, value: T) | Abort(ctx: Ctx, error: Error)

  /** The types arithmetic accepts. */
  predicate IsScalar(ty: char)
  {
    ty == 'i' || ty == 'c'
  }

  /** A name some active scope declares. */
  predicate Declared(t: Table, name: string)
  {
    FindAll(t, name).Some?
  }

  /** Appends instructions to the body, one `genCode` call each. */
  function Emit(c: Ctx, instrs: seq<Instr>): (c': Ctx)
    ensures c'.gen.code == c.gen.code + instrs
    ensures c' == c.(gen := c.gen.(code := c'.gen.code))
  {
    c.(gen := GenCodeAll(c.gen, instrs))
  }

  /** `getCurrOffsetAndUpdate(words)` on the context. */
  function Alloc(c: Ctx, words: int): (r: (Ctx, int))
    ensures r.1 == c.gen.offset
    ensures r.0 == c.(gen := c.gen.(offset := c.gen.offset - 4 * words))
  {
    var (g, off) := GetCurrOffsetAndUpdate(c.gen, words);
    (c.(gen := g), off)
  }

  // ---------------------------------------------------------------------
  // Labels and branches
  // ---------------------------------------------------------------------

  /** The text `newLabel` prints for counter value `n`. */
  function LabelName(n: nat): string
  {
    "label" + NatToString(n)
  }

  /** `newLabel`: `labeln` for the current counter, then the counter moves on. */
  function NewLabel(c: Ctx): (r: (Ctx, string))
    ensures r.1 == LabelName(c.labels)
    ensures r.0 == c.(labels := c.labels + 1)
  {
    (c.(labels := c.labels + 1), LabelName(c.labels))
  }

  /** Different counter values give different labels. */
  lemma LabelNameInjective(m: nat, n: nat)
    ensures LabelName(m) == LabelName(n) <==> m == n
  {
    if LabelName(m) == LabelName(n) {
      assert LabelName(m)[5..] == NatToString(m);
      assert LabelName(n)[5..] == NatToString(n);
      NatToStringInjective(m, n);
    }
  }

  /** Code labels never coincide with the generated temporary or string-label names. */
  lemma LabelNotGenerated(m: nat, kind: NameKind, n: nat)
    ensures LabelName(m) != GenName(kind, n)
  {
    assert LabelName(m)[0] == 'l';
    assert GenName(kind, n)[0] == 't' || GenName(kind, n)[0] == 's';
  }

  /** Labels drawn by successive `newLabel` calls are pairwise distinct. */
  lemma SuccessiveLabelsDistinct(c: Ctx)
    ensures var (c1, l1) := NewLabel(c);
      var (c2, l2) := NewLabel(c1);
      l1 != l2 && c2.labels == c.labels + 2
  {
    LabelNameInjective(c.labels, c.labels + 1);
  }

  /**
   * `genBranchOnZero`, corrected: when the record is indirect, the
   * condition is loaded from `$sp` plus the stored offset, as every other
   * consumer does.
   */
  function GenBranchOnZero(c: Ctx, er: ExpRec): (r: (Ctx, string))
    ensures r.1 == LabelName(c.labels) && r.0.labels == c.labels + 1
    ensures r.0.table == c.table && r.0.gen.offset == c.gen.offset && r.0.gen.statics == c.gen.statics
    ensures c.gen.code <= r.0.gen.code
    ensures var added := r.0.gen.code[|c.gen.code|..];
      && |added| >= 2
      && added[|added| - 2] == Lw(T(0), if er.indirect then Indirect(T(c.regIndex + 3)) else Stack(er.loc))
      && added[|added| - 1] == Beqz(T(0), r.1)
    ensures r.0.gen.code == c.gen.code + AddressCode(c.regIndex, er) + [Lw(T(0), OperandAt(c.regIndex, er)), Beqz(T(0), r.1)]
    ensures r.0.regIndex == After(c.regIndex, er)
  {
    var (c1, l) := NewLabel(c);
    var (c2, a) := Operand(c1, er);
    (Emit(c2, [Lw(T(0), a), Beqz(T(0), l)]), l)
  }

  /** `genBranchOnZero` as written: the value at `er.loc` is tested, whatever the record. */
  function GenBranchOnZeroAsWritten(c: Ctx, er: ExpRec): (r: (Ctx, string))
    ensures r.1 == LabelName(c.labels)
    ensures r.0 == c.(labels := c.labels + 1, gen := c.gen.(code := c.gen.code + [Lw(T(0), Stack(er.loc)), Beqz(T(0), r.1)]))
  {
    var (c1, l) := NewLabel(c);
    (Emit(c1, [Lw(T(0), Stack(er.loc)), Beqz(T(0), l)]), l)
  }

  /**
   * For an indirect record (`if (a[i])`) the version as written tests the
   * record's own slot, which holds the element's offset from `$sp`
   * (`IndexAddressCode`: the array's offset minus four times the index),
   * not the element: the branch depends on where the element lies, never
   * on its value. The corrected one adds `$sp` to that offset and tests the
   * element itself. For a direct record both emit the same two instructions.
   */
  lemma BranchOnIndirectRecord(c: Ctx, er: ExpRec)
    ensures !er.indirect ==> GenBranchOnZero(c, er) == GenBranchOnZeroAsWritten(c, er)
    ensures er.indirect ==>
      var asWritten := GenBranchOnZeroAsWritten(c, er).0.gen.code;
      var corrected := GenBranchOnZero(c, er).0.gen.code;
      && asWritten[|asWritten| - 2] == Lw(T(0), Stack(er.loc))
      && corrected[|corrected| - 2] == Lw(T(0), Indirect(T(c.regIndex + 3)))
      && corrected[|c.gen.code|..|c.gen.code| + 2] == [Move(T(0), SP), Lw(T(1), Stack(er.loc))]
  {
  }

  /** `genBranchAndLabel(branchTo, label)`: jump back, then place the exit label. */
  function GenBranchAndLabelTo(c: Ctx, branchTo: string, lbl: string): (c': Ctx)
    ensures c' == Emit(c, [B(branchTo), LabelDef(lbl)])
    ensures RenderAll(c'.gen.code[|c.gen.code|..]) == ["b " + branchTo, lbl + ":"]
  {
    Emit(c, [B(branchTo), LabelDef(lbl)])
  }

  /**
   * `genBranchAndLabel(label)`: a jump to a fresh label, then `label`; the
   * fresh label is returned so that the caller can place it later.
   */
  function GenBranchAndLabel(c: Ctx, lbl: string): (r: (Ctx, string))
    ensures r.1 == LabelName(c.labels) && r.0.labels == c.labels + 1
    ensures r.0.gen.code == c.gen.code + [B(r.1), LabelDef(lbl)]
    ensures r.0.table == c.table && r.0.gen.offset == c.gen.offset && r.0.regIndex == c.regIndex
  {
    var (c1, l) := NewLabel(c);
    (Emit(c1, [B(l), LabelDef(lbl)]), l)
  }

  /** `genLabelStmt(label)`: the line `label:`, and the label itself back. */
  function GenLabelStmtNamed(c: Ctx, lbl: string): (r: (Ctx, string))
    ensures r.1 == lbl
    ensures r.0.gen.code == c.gen.code + [LabelDef(lbl)]
    ensures Render(r.0.gen.code[|c.gen.code|]) == lbl + ":"
    ensures r.0 == c.(gen := r.0.gen) && r.0.gen.offset == c.gen.offset
  {
    (Emit(c, [LabelDef(lbl)]), lbl)
  }

  /** `genLabelStmt()`: places a fresh label and returns it. */
  function GenLabelStmt(c: Ctx): (r: (Ctx, string))
    ensures r.1 == LabelName(c.labels) && r.0.labels == c.labels + 1
    ensures r.0.gen.code == c.gen.code + [LabelDef(r.1)]
  {
    var (c1, l) := NewLabel(c);
    GenLabelStmtNamed(c1, l)
  }

  /**
   * The `char[10]` buffers of `newLabel` and `genLabelStmt` as written:
   * the label text plus its terminating NUL, and the text plus `:` plus
   * NUL, must fit in ten characters.
   */
  predicate NewLabelFits(n: nat)
  {
    |LabelName(n)| + 1 <= 10
  }

  predicate LabelStmtFits(n: nat)
  {
    |LabelName(n)| + 2 <= 10
  }

  /**
   * From the thousandth label on, `genLabelStmt` writes eleven characters
   * into its ten-character buffer (from the ten-thousandth, `newLabel` does
   * too), while the first thousand labels fit.
   */
  lemma LabelBufferOverflow()
    ensures LabelStmtFits(999) && !LabelStmtFits(1000)
    ensures NewLabelFits(9999) && !NewLabelFits(10000)
  {
    assert NatToString(999) == "999";
    assert NatToString(1000) == "1000";
    assert NatToString(9999) == "9999";
    assert NatToString(10000) == "10000";
  }

  // ---------------------------------------------------------------------
  // Expressions
  // ---------------------------------------------------------------------

  /** The register `genCodeAddSPAndOffset` uses at rotation position `k`. */
  function RotationReg(k: RegIndex): Reg
  {
    T(k + 3)
  }

  /**
   * `genCodeAddSPAndOffset(loc)`: `$sp` plus the address offset stored at
   * `loc`, into the next register of the rotation, which is returned as an
   * indirect operand.
   */
  function AddSPAndOffset(c: Ctx, loc: int): (r: (Ctx, Addr))
    ensures r.1 == Indirect(RotationReg(c.regIndex))
    ensures r.0.regIndex == (c.regIndex + 1) % 7
    ensures r.0.gen.code == c.gen.code + [Move(T(0), SP), Lw(T(1), Stack(loc)), Alu(Add, RotationReg(c.regIndex), T(0), T(1))]
    ensures r.0.table == c.table && r.0.labels == c.labels
    ensures r.0.gen.offset == c.gen.offset && r.0.gen.statics == c.gen.statics
  {
    var reg := RotationReg(c.regIndex);
    var c1 := Emit(c, [Move(T(0), SP), Lw(T(1), Stack(loc)), Alu(Add, reg, T(0), T(1))]);
    (c1.(regIndex := (c.regIndex + 1) % 7), Indirect(reg))
  }

  /** The registers of the rotation, `$t3` … `$t9`. */
  const Rotation: set<Reg> := {T(3), T(4), T(5), T(6), T(7), T(8), T(9)}

  /** `n` consecutive `genCodeAddSPAndOffset` calls; the registers they return. */
  function AddSPRun(c: Ctx, locs: seq<int>): (r: (Ctx, seq<Reg>))
    decreases |locs|
  {
    if locs == [] then (c, [])
    else
      var (c1, a) := AddSPAndOffset(c, locs[0]);
      var (c2, regs) := AddSPRun(c1, locs[1..]);
      (c2, [a.reg] + regs)
  }

  lemma {:induction false} AddSPRunAt(c: Ctx, locs: seq<int>, i: nat)
    requires i < |locs|
    ensures |AddSPRun(c, locs).1| == |locs|
    ensures AddSPRun(c, locs).1[i] == T((c.regIndex + i) % 7 + 3)
    ensures AddSPRun(c, locs).0.regIndex == (c.regIndex + |locs|) % 7
    decreases |locs|
  {
    AddSPRunEnd(c, locs);
    var (c1, a) := AddSPAndOffset(c, locs[0]);
    var regs := AddSPRun(c1, locs[1..]).1;
    assert AddSPRun(c, locs).1 == [a.reg] + regs;
    if i > 0 {
      AddSPRunAt(c1, locs[1..], i - 1);
      assert regs[i - 1] == T((c1.regIndex + (i - 1)) % 7 + 3);
      RotateStep(c.regIndex, i - 1);
    }
  }

  /** `n` calls return `n` registers and move the position `n` steps. */
  lemma {:induction false} AddSPRunEnd(c: Ctx, locs: seq<int>)
    ensures |AddSPRun(c, locs).1| == |locs|
    ensures AddSPRun(c, locs).0.regIndex == (c.regIndex + |locs|) % 7
    decreases |locs|
  {
    if locs != [] {
      var c1 := AddSPAndOffset(c, locs[0]).0;
      AddSPRunEnd(c1, locs[1..]);
      RotateStep(c.regIndex, |locs| - 1);
    }
  }

  /** One step of the rotation, then `k` more, is `k + 1` steps. */
  lemma RotateStep(a: RegIndex, k: nat)
    ensures ((a + 1) % 7 + k) % 7 == (a + 1 + k) % 7
  {
    if a + 1 == 7 {
      assert (7 + k) % 7 == k % 7;
    }
  }

  /**
   * The rotation: up to seven consecutive calls hand out pairwise different
   * registers of `Rotation`, and the position comes back to where
   * it started after every seventh call.
   */
  lemma RegisterRotation(c: Ctx, locs: seq<int>)
    requires 0 < |locs| <= 7
    ensures |AddSPRun(c, locs).1| == |locs|
    ensures forall i :: 0 <= i < |locs| ==> AddSPRun(c, locs).1[i] in Rotation
    ensures forall i, j :: 0 <= i < j < |locs| ==> AddSPRun(c, locs).1[i] != AddSPRun(c, locs).1[j]
    ensures |locs| == 7 ==> AddSPRun(c, locs).0.regIndex == c.regIndex
  {
    AddSPRunAt(c, locs, 0);
    forall i | 0 <= i < |locs|
      ensures AddSPRun(c, locs).1[i] in Rotation
    {
      AddSPRunAt(c, locs, i);
      assert AddSPRun(c, locs).1[i] == RotationReg((c.regIndex + i) % 7);
    }
    forall i, j | 0 <= i < j < |locs|
      ensures AddSPRun(c, locs).1[i] != AddSPRun(c, locs).1[j]
    {
      AddSPRunAt(c, locs, i);
      AddSPRunAt(c, locs, j);
      RotationDistinct(c.regIndex, i, j);
    }
  }

  lemma RotationDistinct(a: RegIndex, i: nat, j: nat)
    requires i < j < 7
    ensures (a + i) % 7 != (a + j) % 7
  {
    assert (a + i) % 7 == if a + i < 7 then a + i else a + i - 7;
    assert (a + j) % 7 == if a + j < 7 then a + j else a + j - 7;
  }

  /**
   * Where a record's value is read or written when the rotation stands at
   * `k`: through the rotation register for an indirect record, in its own
   * slot otherwise.
   */
  function OperandAt(k: RegIndex, er: ExpRec): Addr
  {
    if er.indirect then Indirect(RotationReg(k)) else Stack(er.loc)
  }

  /** The address computation a record needs at rotation position `k`; none when direct. */
  function AddressCode(k: RegIndex, er: ExpRec): seq<Instr>
  {
    if er.indirect then [Move(T(0), SP), Lw(T(1), Stack(er.loc)), Alu(Add, RotationReg(k), T(0), T(1))] else []
  }

  /** The rotation position once a record has been resolved at position `k`. */
  function After(k: RegIndex, er: ExpRec): RegIndex
  {
    if er.indirect then (k + 1) % 7 else k
  }

  /** The operand text of a record: through the rotation when indirect, `loc($sp)` otherwise. */
  function Operand(c: Ctx, er: ExpRec): (r: (Ctx, Addr))
    ensures !er.indirect ==> r == (c, Stack(er.loc))
    ensures er.indirect ==> r == AddSPAndOffset(c, er.loc)
    ensures r.1 == OperandAt(c.regIndex, er)
    ensures r.0 == c.(gen := c.gen.(code := c.gen.code + AddressCode(c.regIndex, er)), regIndex := After(c.regIndex, er))
  {
    if er.indirect then AddSPAndOffset(c, er.loc) else (c, Stack(er.loc))
  }

  /** `genCodeAND`: logical, not bitwise, conjunction of `$t1` and `$t2` into `$t0`. */
  const AndCode: seq<Instr> := [Alu(Sne, T(3), T(1), Zero), Alu(Sne, T(4), T(2), Zero), Alu(And, T(0), T(3), T(4))]

  /** The operator characters `genCodeExprOP` knows. */
  predicate IsOperator(op: char)
  {
    op in "<>+-*/=|&"
  }

  /** The operator part of `genCodeExprOP`: `$t1 op $t2` into `$t0`. */
  function OpCode(op: char): (r: seq<Instr>)
    ensures r == [] <==> !IsOperator(op)
    ensures |r| == (if op in "<>+-=|" then 1 else if op in "*/" then 2 else if op == '&' then 3 else 0)
    ensures r != [] ==> (r[|r| - 1].Alu? || r[|r| - 1].Mflo?) && r[|r| - 1].rd == T(0)
  {
    match op
    case '<' => [Alu(Slt, T(0), T(1), T(2))]
    case '>' => [Alu(Sgt, T(0), T(1), T(2))]
    case '+' => [Alu(Add, T(0), T(1), T(2))]
    case '-' => [Alu(Sub, T(0), T(1), T(2))]
    case '*' => [Mult(T(1), T(2)), Mflo(T(0))]
    case '/' => [Div(T(1), T(2)), Mflo(T(0))]
    case '=' => [Alu(Seq, T(0), T(1), T(2))]
    case '|' => [Alu(Or, T(0), T(1), T(2))]
    case '&' => AndCode
    case _ => []
  }

  /** The text of the registers the operator code uses. */
  lemma OperatorRegisters()
    ensures RegText(T(0)) == "$t0" && RegText(T(1)) == "$t1" && RegText(T(2)) == "$t2"
    ensures RegText(T(3)) == "$t3" && RegText(T(4)) == "$t4"
  {
    assert NatToString(0) == "0" && NatToString(1) == "1" && NatToString(2) == "2";
    assert NatToString(3) == "3" && NatToString(4) == "4";
  }

  /**
   * The lines `genCodeExprOP` writes for each operator: the MIPS instruction
   * of the operator, `mult`/`div` read back through `mflo`, and `&&` as the
   * logical conjunction of two `sne` tests; any other character writes
   * nothing.
   */
  lemma OpCodeText(op: char)
    ensures op == '<' ==> RenderAll(OpCode(op)) == ["slt $t0, $t1, $t2"]
    ensures op == '>' ==> RenderAll(OpCode(op)) == ["sgt $t0, $t1, $t2"]
    ensures op == '+' ==> RenderAll(OpCode(op)) == ["add $t0, $t1, $t2"]
    ensures op == '-' ==> RenderAll(OpCode(op)) == ["sub $t0, $t1, $t2"]
    ensures op == '*' ==> RenderAll(OpCode(op)) == ["mult $t1, $t2", "mflo $t0"]
    ensures op == '/' ==> RenderAll(OpCode(op)) == ["div $t1, $t2", "mflo $t0"]
    ensures op == '=' ==> RenderAll(OpCode(op)) == ["seq $t0, $t1, $t2"]
    ensures op == '|' ==> RenderAll(OpCode(op)) == ["or $t0, $t1, $t2"]
    ensures op == '&' ==> RenderAll(OpCode(op)) == ["sne $t3, $t1, $zero", "sne $t4, $t2, $zero", "and $t0, $t3, $t4"]
    ensures !IsOperator(op) ==> RenderAll(OpCode(op)) == []
  {
    OperatorRegisters();
    if op in "<>+-=|" {
      OneLineOpText(op);
    } else if op == '*' || op == '/' {
      MfloOpText(op);
    } else if op == '&' {
      AndText();
    }
  }

  lemma OneLineOpText(op: char)
    requires op in "<>+-=|"
    ensures op == '<' ==> RenderAll(OpCode(op)) == ["slt $t0, $t1, $t2"]
    ensures op == '>' ==> RenderAll(OpCode(op)) == ["sgt $t0, $t1, $t2"]
    ensures op == '+' ==> RenderAll(OpCode(op)) == ["add $t0, $t1, $t2"]
    ensures op == '-' ==> RenderAll(OpCode(op)) == ["sub $t0, $t1, $t2"]
    ensures op == '=' ==> RenderAll(OpCode(op)) == ["seq $t0, $t1, $t2"]
    ensures op == '|' ==> RenderAll(OpCode(op)) == ["or $t0, $t1, $t2"]
  {
    if op in "<>" {
      CompareOpText(op);
    } else if op in "+-" {
      AddSubText(op);
    } else {
      EqualOrText(op);
    }
  }

  lemma CompareOpText(op: char)
    requires op in "<>"
    ensures op == '<' ==> RenderAll(OpCode(op)) == ["slt $t0, $t1, $t2"]
    ensures op == '>' ==> RenderAll(OpCode(op)) == ["sgt $t0, $t1, $t2"]
  {
    if op == '<' {
      AluLine(Slt);
      assert AluText(Slt) + " $t0, $t1, $t2" == "slt $t0, $t1, $t2";
    } else {
      AluLine(Sgt);
      assert AluText(Sgt) + " $t0, $t1, $t2" == "sgt $t0, $t1, $t2";
    }
  }

  lemma AddSubText(op: char)
    requires op in "+-"
    ensures op == '+' ==> RenderAll(OpCode(op)) == ["add $t0, $t1, $t2"]
    ensures op == '-' ==> RenderAll(OpCode(op)) == ["sub $t0, $t1, $t2"]
  {
    if op == '+' {
      AluLine(Add);
      assert AluText(Add) + " $t0, $t1, $t2" == "add $t0, $t1, $t2";
    } else {
      AluLine(Sub);
      assert AluText(Sub) + " $t0, $t1, $t2" == "sub $t0, $t1, $t2";
    }
  }

  lemma EqualOrText(op: char)
    requires op in "=|"
    ensures op == '=' ==> RenderAll(OpCode(op)) == ["seq $t0, $t1, $t2"]
    ensures op == '|' ==> RenderAll(OpCode(op)) == ["or $t0, $t1, $t2"]
  {
    if op == '=' {
      AluLine(Seq);
      assert AluText(Seq) + " $t0, $t1, $t2" == "seq $t0, $t1, $t2";
    } else {
      AluLine(Or);
      assert AluText(Or) + " $t0, $t1, $t2" == "or $t0, $t1, $t2";
    }
  }

  lemma MfloOpText(op: char)
    requires op == '*' || op == '/'
    ensures op == '*' ==> RenderAll(OpCode(op)) == ["mult $t1, $t2", "mflo $t0"]
    ensures op == '/' ==> RenderAll(OpCode(op)) == ["div $t1, $t2", "mflo $t0"]
  {
    OperatorRegisters();
    var r := OpCode(op);
    assert RenderAll(r) == [Render(r[0]), Render(r[1])];
    assert Render(Mflo(T(0))) == "mflo " + "$t0" == "mflo $t0";
    if op == '*' {
      assert Render(r[0]) == "mult " + "$t1" + ", " + "$t2" == "mult $t1, $t2";
    } else {
      assert Render(r[0]) == "div " + "$t1" + ", " + "$t2" == "div $t1, $t2";
    }
  }

  lemma AndText()
    ensures RenderAll(AndCode) == ["sne $t3, $t1, $zero", "sne $t4, $t2, $zero", "and $t0, $t3, $t4"]
  {
    OperatorRegisters();
    var r := AndCode;
    assert RenderAll(r) == [Render(r[0]), Render(r[1]), Render(r[2])];
    assert Render(r[0]) == "sne $t3, $t1, $zero";
    assert Render(r[1]) == "sne $t4, $t2, $zero";
    assert Render(r[2]) == "and $t0, $t3, $t4";
  }

  /** The one line of a three-register operator from `$t1` and `$t2` into `$t0`. */
  lemma AluLine(op: AluOp)
    ensures RenderAll([Alu(op, T(0), T(1), T(2))]) == [AluText(op) + " $t0, $t1, $t2"]
  {
    OperatorRegisters();
    var a := AluText(op);
    assert Render(Alu(op, T(0), T(1), T(2))) == a + " " + "$t0" + ", " + "$t1" + ", " + "$t2";
    assert a + " " + "$t0" + ", " + "$t1" + ", " + "$t2" == a + " $t0, $t1, $t2";
    assert RenderAll([Alu(op, T(0), T(1), T(2))]) == [Render(Alu(op, T(0), T(1), T(2)))];
  }

  /** The number of instructions `Operand` emits for a record. */
  function OperandCost(er: ExpRec): nat
  {
    if er.indirect then 3 else 0
  }

  /**
   * The lines of `genCodeExprOP` when the rotation stands at `k`: the
   * address computations of the indirect operands, left first; `lw $t1`
   * and `lw $t2` from the two operands; the operator; `sw $t0` into the
   * temporary.
   */
  function ExprCode(k: RegIndex, er1: ExpRec, er2: ExpRec, tempLoc: int, op: char): seq<Instr>
  {
    var k2 := After(k, er1);
    (AddressCode(k, er1) + AddressCode(k2, er2))
      + ([Lw(T(1), OperandAt(k, er1)), Lw(T(2), OperandAt(k2, er2))] + OpCode(op) + [Sw(T(0), Stack(tempLoc))])
  }

  /**
   * Resolving two records in a row: both address computations, left
   * first, and the rotation moved once per indirect record.
   */
  lemma OperandPair(c: Ctx, er1: ExpRec, er2: ExpRec)
    ensures var (c1, a1) := Operand(c, er1);
      var (c2, a2) := Operand(c1, er2);
      && a1 == OperandAt(c.regIndex, er1) && a2 == OperandAt(After(c.regIndex, er1), er2)
      && c2 == c.(gen := c.gen.(code := c.gen.code + (AddressCode(c.regIndex, er1) + AddressCode(After(c.regIndex, er1), er2))),
                  regIndex := After(After(c.regIndex, er1), er2))
  {
    var (c1, a1) := Operand(c, er1);
    var (c2, a2) := Operand(c1, er2);
    assert c2.gen.code == (c.gen.code + AddressCode(c.regIndex, er1)) + AddressCode(After(c.regIndex, er1), er2);
  }

  /** The length of `ExprCode` and its closing store. */
  lemma ExprCodeShape(k: RegIndex, er1: ExpRec, er2: ExpRec, tempLoc: int, op: char)
    ensures |ExprCode(k, er1, er2, tempLoc, op)| == OperandCost(er1) + OperandCost(er2) + 3 + |OpCode(op)|
    ensures ExprCode(k, er1, er2, tempLoc, op)[|ExprCode(k, er1, er2, tempLoc, op)| - 1] == Sw(T(0), Stack(tempLoc))
  {
  }

  lemma SliceOfAppend<X>(a: seq<X>, b: seq<X>)
    ensures (a + b)[|a|..] == b
  {
  }

  lemma AppendAssoc<X>(a: seq<X>, b: seq<X>, c: seq<X>)
    ensures (a + b) + c == a + (b + c)
  {
  }

  /** `RenderAll` line by line over a concatenation. */
  lemma RenderAllAppend(a: seq<Instr>, b: seq<Instr>)
    ensures RenderAll(a + b) == RenderAll(a) + RenderAll(b)
  {
  }

  /**
   * With two direct operands, `genCodeExprOP` writes exactly
   * `lw $t1, loc1($sp)`, `lw $t2, loc2($sp)`, the operator's lines and
   * `sw $t0, temp($sp)`.
   */
  lemma ExprCodeText(k: RegIndex, er1: ExpRec, er2: ExpRec, tempLoc: int, op: char)
    requires !er1.indirect && !er2.indirect
    ensures RenderAll(ExprCode(k, er1, er2, tempLoc, op)) ==
      ["lw $t1, " + IntToString(er1.loc) + "($sp)", "lw $t2, " + IntToString(er2.loc) + "($sp)"]
      + RenderAll(OpCode(op))
      + ["sw $t0, " + IntToString(tempLoc) + "($sp)"]
  {
    var loads := [Lw(T(1), Stack(er1.loc)), Lw(T(2), Stack(er2.loc))];
    var store := [Sw(T(0), Stack(tempLoc))];
    assert ExprCode(k, er1, er2, tempLoc, op) == loads + OpCode(op) + store;
    RenderAllAppend(loads + OpCode(op), store);
    RenderAllAppend(loads, OpCode(op));
    StackLineText(T(1), "$t1", er1.loc);
    StackLineText(T(2), "$t2", er2.loc);
    StackLineText(T(0), "$t0", tempLoc);
    assert "lw " + "$t1" + ", " == "lw $t1, " && "lw " + "$t2" + ", " == "lw $t2, " && "sw " + "$t0" + ", " == "sw $t0, ";
    assert RenderAll(loads) == [Render(loads[0]), Render(loads[1])];
    assert RenderAll(store) == [Render(store[0])];
  }

  /** A load or store of a stack slot reads `lw $tk, loc($sp)` or `sw $tk, loc($sp)`. */
  lemma StackLineText(r: Reg, name: string, loc: int)
    requires r in {T(0), T(1), T(2)} && name == RegText(r)
    ensures Render(Lw(r, Stack(loc))) == "lw " + name + ", " + IntToString(loc) + "($sp)"
    ensures Render(Sw(r, Stack(loc))) == "sw " + name + ", " + IntToString(loc) + "($sp)"
  {
  }

  /**
   * `genCodeExprOP`: both operands into `$t1` and `$t2` (left resolved
   * first), the operator, and `$t0` stored into the temporary at `tempLoc`.
   */
  function ExprOP(c: Ctx, er1: ExpRec, er2: ExpRec, tempLoc: int, op: char): (c': Ctx)
    ensures c'.gen.code == c.gen.code + ExprCode(c.regIndex, er1, er2, tempLoc, op)
    ensures c'.regIndex == After(After(c.regIndex, er1), er2)
    ensures |c'.gen.code| == |c.gen.code| + OperandCost(er1) + OperandCost(er2) + 3 + |OpCode(op)|
    ensures c'.gen.code[|c'.gen.code| - 1] == Sw(T(0), Stack(tempLoc))
    ensures c'.table == c.table && c'.labels == c.labels
    ensures c'.gen.offset == c.gen.offset && c'.gen.statics == c.gen.statics
  {
    var (c1, a1) := Operand(c, er1);
    var (c2, a2) := Operand(c1, er2);
    var tail := [Lw(T(1), a1), Lw(T(2), a2)] + OpCode(op) + [Sw(T(0), Stack(tempLoc))];
    var code := ExprCode(c.regIndex, er1, er2, tempLoc, op);
    assert c2.gen.code + tail == c.gen.code + code by {
      OperandPair(c, er1, er2);
      AppendAssoc(c.gen.code, AddressCode(c.regIndex, er1) + AddressCode(After(c.regIndex, er1), er2), tail);
    }
    ExprCodeShape(c.regIndex, er1, er2, tempLoc, op);
    Emit(c2, tail)
  }

  /** Generated temporary names contain no `[`, so they are never read as array references. */
  lemma GenNameHasNoBracket(kind: NameKind, n: nat)
    ensures !IsArray(GenName(kind, n))
  {
    var d := NatToString(n);
    assert forall i :: 0 <= i < |d| ==> IsDigit(d[i]);
  }

  lemma GetTempFreshWhen(t: Table, ty: char, loc: int)
    requires HasScope(t)
    ensures Fresh(t) ==>
      var (t', s) := GetTemp(t, ty, loc);
      Find(t', s.name) == Some(s) && Fresh(t')
  {
    if Fresh(t) {
      GetTempFresh(t, ty, loc);
    }
  }

  /**
   * `genCodeExpr`: both operands must be `int` or `char`; the result goes
   * to a new temporary of one word and comes back as a direct `int` record
   * at the cursor's old position.
   */
  function GenCodeExpr(c: Ctx, er1: ExpRec, er2: ExpRec, op: char): (r: Step<ExpRec>)
    requires IsScalar(er1.ty) && IsScalar(er2.ty) ==> HasScope(c.table)
    ensures r.Abort? <==> !IsScalar(er1.ty) || !IsScalar(er2.ty)
    ensures r.Abort? ==> r.ctx == c && r.error == OperandType
    ensures r.Done? ==>
      && r.ctx.gen.offset == c.gen.offset - 4
      && r.ctx.table.counter == c.table.counter + 1
      && |r.ctx.table.active| == |c.table.active|
      && r.ctx.gen.statics == c.gen.statics && r.ctx.labels == c.labels
      && r.ctx.gen.code == c.gen.code + ExprCode(c.regIndex, er1, er2, c.gen.offset, op)
      && r.ctx.regIndex == After(After(c.regIndex, er1), er2)
    ensures r.Done? && Fresh(c.table) ==>
      && r.value == ExpRec('i', c.gen.offset, "", false)
      && Fresh(r.ctx.table)
  {
    if !IsScalar(er1.ty) || !IsScalar(er2.ty) then Abort(c, OperandType)
    else
      var (t1, temp) := GetTemp(c.table, 'i', c.gen.offset);
      var (c1, off) := Alloc(c.(table := t1), 1);
      var c2 := ExprOP(c1, er1, er2, off, op);
      assert c2.gen.code == c.gen.code + ExprCode(c.regIndex, er1, er2, c.gen.offset, op);
      GenNameHasNoBracket(TempName, c.table.counter);
      assert ParseReference(temp.name) == (temp.name, Plain);
      assert Declared(c2.table, temp.name) by {
        assert temp.name in Innermost(t1);
        assert t1.active[|t1.active| - 1] == Innermost(t1);
      }
      GetTempFreshWhen(c.table, 'i', c.gen.offset);
      CreateExpRecForSymbol(c2, temp.name)
  }

  // ---------------------------------------------------------------------
  // Expression records
  // ---------------------------------------------------------------------

  /**
   * `createExpRec(type)`: a one-word stack slot for `int` and `char`, a new
   * string label for `s`; any other type gets neither. Fields the source
   * leaves unset are 0 (location) and "" (label).
   */
  function CreateExpRec(c: Ctx, ty: char): (r: (Ctx, ExpRec))
    requires ty == 's' ==> HasScope(c.table)
    ensures r.1.ty == ty && !r.1.indirect
    ensures IsScalar(ty) ==> r == (c.(gen := c.gen.(offset := c.gen.offset - 4)), ExpRec(ty, c.gen.offset, "", false))
    ensures ty == 's' ==>
      var (t', s) := GetStringLabel(c.table);
      r == (c.(table := t'), ExpRec('s', 0, s.name, false))
    ensures !IsScalar(ty) && ty != 's' ==> r == (c, ExpRec(ty, 0, "", false))
  {
    if IsScalar(ty) then
      var (c1, off) := Alloc(c, 1);
      (c1, ExpRec(ty, off, "", false))
    else if ty == 's' then
      var (t1, s) := GetStringLabel(c.table);
      (c.(table := t1), ExpRec(ty, 0, s.name, false))
    else
      (c, ExpRec(ty, 0, "", false))
  }

  /**
   * The code that puts the address offset of `array[index]` into the slot
   * `tempLoc`: the index variable times four, subtracted from the array's
   * offset.
   */
  function IndexAddressCode(indexLoc: int, arrayLoc: int, tempLoc: int): seq<Instr>
  {
    [ Lw(T(0), Stack(indexLoc)),
      Alu(Add, T(0), T(0), T(0)),
      Alu(Add, T(0), T(0), T(0)),
      Li(T(1), IntToString(arrayLoc)),
      Alu(Sub, T(0), T(1), T(0)),
      Sw(T(0), Stack(tempLoc)) ]
  }

  /**
   * `createExpRecForSymbol(name)`: resolves `x`, `x[k]` or `x[id]`. A
   * literal subscript becomes a direct record `4k` bytes below the array's
   * offset; an identifier subscript gets a one-word temporary holding the
   * element's address offset and an indirect record pointing at it. Every
   * name must be declared in some active scope.
   */
  function CreateExpRecForSymbol(c: Ctx, name: string): (r: Step<ExpRec>)
    requires HasScope(c.table)
    ensures var (base, sub) := ParseReference(name);
      r.Abort? <==> !Declared(c.table, base) || (sub.Ident? && !Declared(c.table, sub.id))
    ensures r.Abort? ==> r.ctx == c && r.error == SymbolNotFound
    ensures var (base, sub) := ParseReference(name);
      r.Done? && !sub.Ident? ==>
        var sym := FindAll(c.table, base).value;
        && r.ctx == c
        && r.value == ExpRec(sym.ty, sym.loc - 4 * (if sub.Literal? then sub.k else 0), "", false)
    ensures var (base, sub) := ParseReference(name);
      r.Done? && sub.Ident? ==>
        var sym := FindAll(c.table, base).value;
        var index := FindAll(c.table, sub.id).value;
        && r.value == ExpRec(sym.ty, c.gen.offset, "", true)
        && r.ctx.table == GetTemp(c.table, NoType, c.gen.offset).0
        && r.ctx.gen == Gen(c.gen.offset - 4, c.gen.code + IndexAddressCode(index.loc, sym.loc, c.gen.offset), c.gen.statics)
        && r.ctx.labels == c.labels && r.ctx.regIndex == c.regIndex
  {
    var (base, sub) := ParseReference(name);
    Resolve(c, base, sub)
  }

  /** The lookups and the record of `createExpRecForSymbol`, once the name is split. */
  function Resolve(c: Ctx, base: string, sub: Subscript): (r: Step<ExpRec>)
    requires HasScope(c.table)
    ensures r.Abort? <==> !Declared(c.table, base) || (sub.Ident? && !Declared(c.table, sub.id))
    ensures r.Abort? ==> r.ctx == c && r.error == SymbolNotFound
    ensures r.Done? && !sub.Ident? ==>
      var sym := FindAll(c.table, base).value;
      && r.ctx == c
      && r.value == ExpRec(sym.ty, sym.loc - 4 * (if sub.Literal? then sub.k else 0), "", false)
    ensures r.Done? && sub.Ident? ==>
      r == Done(IndexedRecord(c, FindAll(c.table, base).value, FindAll(c.table, sub.id).value).0,
                IndexedRecord(c, FindAll(c.table, base).value, FindAll(c.table, sub.id).value).1)
  {
    match Lookup(c.table, base)
    case Err(e) => Abort(c, e)
    case Ok(sym) =>
      match sub
      case Ident(id) =>
        (match Lookup(c.table, id)
         case Err(e) => Abort(c, e)
         case Ok(index) =>
           var (c1, rec) := IndexedRecord(c, sym, index);
           Done(c1, rec))
      case Literal(k) => Done(c, ExpRec(sym.ty, sym.loc - k * 4, "", false))
      case Plain => Done(c, ExpRec(sym.ty, sym.loc, "", false))
  }

  /** The identifier-subscript branch of `createExpRecForSymbol`. */
  function IndexedRecord(c: Ctx, sym: Symbol, index: Symbol): (r: (Ctx, ExpRec))
    requires HasScope(c.table)
    ensures r.1 == ExpRec(sym.ty, c.gen.offset, "", true)
    ensures r.0.table == GetTemp(c.table, NoType, c.gen.offset).0
    ensures r.0.gen == Gen(c.gen.offset - 4, c.gen.code + IndexAddressCode(index.loc, sym.loc, c.gen.offset), c.gen.statics)
    ensures r.0.labels == c.labels && r.0.regIndex == c.regIndex
  {
    var (t1, temp) := GetTemp(c.table, NoType, c.gen.offset);
    var (c1, off) := Alloc(c.(table := t1), 1);
    (Emit(c1, IndexAddressCode(index.loc, sym.loc, off)), ExpRec(sym.ty, off, "", true))
  }

  /** `genCodeLitNum(lexeme)`: a new `int` slot loaded with the literal text. */
  function GenCodeLitNum(c: Ctx, lexeme: string): (r: (Ctx, ExpRec))
    ensures r.1 == ExpRec('i', c.gen.offset, "", false)
    ensures r.0.gen == Gen(c.gen.offset - 4, c.gen.code + [Li(T(0), lexeme), Sw(T(0), Stack(c.gen.offset))], c.gen.statics)
    ensures r.0.table == c.table && r.0.labels == c.labels && r.0.regIndex == c.regIndex
  {
    var (c1, rec) := CreateExpRec(c, 'i');
    (Emit(c1, [Li(T(0), lexeme), Sw(T(0), Stack(rec.loc))]), rec)
  }

  /** `genCodeLitStr(lexeme)`: a new string label and its pool entry; no code. */
  function GenCodeLitStr(c: Ctx, lexeme: string): (r: (Ctx, ExpRec))
    requires HasScope(c.table)
    ensures r.1 == ExpRec('s', 0, GenName(StringLabel, c.table.counter), false)
    ensures r.0.gen == c.gen.(statics := c.gen.statics + [StaticEntry(r.1.locLabel, lexeme)])
    ensures r.0.table == GetStringLabel(c.table).0
    ensures r.0.labels == c.labels && r.0.regIndex == c.regIndex
  {
    var (c1, rec) := CreateExpRec(c, 's');
    (c1.(gen := AddStaticString(c1.gen, rec.locLabel, lexeme)), rec)
  }

  // ---------------------------------------------------------------------
  // Statements
  // ---------------------------------------------------------------------

  /**
   * `genCodeAssignment(er1, er2)`: the types must match, except that an
   * `int` value may go into a `char` variable. The target is resolved
   * first, then the value; the value is copied through `$t1`.
   */
  function GenCodeAssignment(c: Ctx, target: ExpRec, value: ExpRec): (r: Step<()>)
    ensures r.Abort? <==> target.ty != value.ty && !(target.ty == 'c' && value.ty == 'i')
    ensures r.Abort? ==> r.ctx == c && r.error == AssignmentTypes
    ensures r.Done? ==>
      && r.ctx.table == c.table && r.ctx.labels == c.labels
      && r.ctx.gen.offset == c.gen.offset && r.ctx.gen.statics == c.gen.statics
      && c.gen.code <= r.ctx.gen.code
      && |r.ctx.gen.code| == |c.gen.code| + OperandCost(target) + OperandCost(value) + 2
    ensures r.Done? && !target.indirect && !value.indirect ==>
      r.ctx.gen.code == c.gen.code + [Lw(T(1), Stack(value.loc)), Sw(T(1), Stack(target.loc))]
    ensures r.Done? && target.indirect ==>
      r.ctx.gen.code[|r.ctx.gen.code| - 1] == Sw(T(1), Indirect(RotationReg(c.regIndex)))
    ensures r.Done? ==>
      && r.ctx.gen.code == c.gen.code + AssignCode(c.regIndex, target, value)
      && r.ctx.regIndex == After(After(c.regIndex, target), value)
  {
    var valueTy := if target.ty == 'c' && value.ty == 'i' then 'c' else value.ty;
    if target.ty != valueTy then Abort(c, AssignmentTypes)
    else
      var (c1, a1) := Operand(c, target);
      var (c2, a2) := Operand(c1, value);
      var copy := [Lw(T(1), a2), Sw(T(1), a1)];
      assert c2.gen.code + copy == c.gen.code + AssignCode(c.regIndex, target, value) by {
        OperandPair(c, target, value);
        AppendAssoc(c.gen.code, AddressCode(c.regIndex, target) + AddressCode(After(c.regIndex, target), value), copy);
      }
      Done(Emit(c2, copy), ())
  }

  /**
   * The lines of `genCodeAssignment` when the rotation stands at `k`: the
   * target's address computation, then the value's, then `lw $t1` from the
   * value and `sw $t1` into the target.
   */
  function AssignCode(k: RegIndex, target: ExpRec, value: ExpRec): seq<Instr>
  {
    var k2 := After(k, target);
    (AddressCode(k, target) + AddressCode(k2, value)) + [Lw(T(1), OperandAt(k2, value)), Sw(T(1), OperandAt(k, target))]
  }

  /**
   * The four shapes of an assignment: an indirect target takes the first
   * rotation register, an indirect value the one after it when the target
   * also needed one; the copy through `$t1` always comes last.
   */
  lemma AssignCodeCases(k: RegIndex, target: ExpRec, value: ExpRec)
    ensures !target.indirect && !value.indirect ==>
      AssignCode(k, target, value) == [Lw(T(1), Stack(value.loc)), Sw(T(1), Stack(target.loc))]
    ensures target.indirect && !value.indirect ==>
      AssignCode(k, target, value) ==
        [Move(T(0), SP), Lw(T(1), Stack(target.loc)), Alu(Add, RotationReg(k), T(0), T(1)),
         Lw(T(1), Stack(value.loc)), Sw(T(1), Indirect(RotationReg(k)))]
    ensures !target.indirect && value.indirect ==>
      AssignCode(k, target, value) ==
        [Move(T(0), SP), Lw(T(1), Stack(value.loc)), Alu(Add, RotationReg(k), T(0), T(1)),
         Lw(T(1), Indirect(RotationReg(k))), Sw(T(1), Stack(target.loc))]
    ensures target.indirect && value.indirect ==>
      AssignCode(k, target, value) ==
        [Move(T(0), SP), Lw(T(1), Stack(target.loc)), Alu(Add, RotationReg(k), T(0), T(1)),
         Move(T(0), SP), Lw(T(1), Stack(value.loc)), Alu(Add, RotationReg((k + 1) % 7), T(0), T(1)),
         Lw(T(1), Indirect(RotationReg((k + 1) % 7))), Sw(T(1), Indirect(RotationReg(k)))]
  {
  }

  /** The service `syscall` performs to read a value of the type: 5 for `int`, 12 for `char`. */
  function ReadService(ty: char): string
  {
    if ty == 'i' then "5" else "12"
  }

  /**
   * `genCodeCin(name)`: reads an `int` or a `char` into the variable; a
   * variable of any other type produces no code beyond resolving it.
   */
  function GenCodeCin(c: Ctx, name: string): (r: Step<()>)
    requires HasScope(c.table)
    ensures r.Abort? <==> CreateExpRecForSymbol(c, name).Abort?
    ensures r.Abort? ==> r.ctx == c && r.error == SymbolNotFound
    ensures r.Done? ==>
      var (c1, rec) := (CreateExpRecForSymbol(c, name).ctx, CreateExpRecForSymbol(c, name).value);
      var (c2, dest) := Operand(c1, rec);
      && c.gen.code <= r.ctx.gen.code
      && (IsScalar(rec.ty) ==> r.ctx.gen.code == c2.gen.code + [Li(V0, ReadService(rec.ty)), Syscall, Sw(V0, dest)])
      && (!IsScalar(rec.ty) ==> r.ctx == c2)
  {
    match CreateExpRecForSymbol(c, name)
    case Abort(c1, e) => Abort(c1, e)
    case Done(c1, rec) =>
      var (c2, dest) := Operand(c1, rec);
      if rec.ty == 'i' then Done(Emit(c2, [Li(V0, "5"), Syscall, Sw(V0, dest)]), ())
      else if rec.ty == 'c' then Done(Emit(c2, [Li(V0, "12"), Syscall, Sw(V0, dest)]), ())
      else Done(c2, ())
  }

  /** `genCodeEndl`: prints a newline character. */
  function GenCodeEndl(c: Ctx): (c': Ctx)
    ensures c' == Emit(c, [Li(A0, "'\\n'"), Li(V0, "11"), Syscall])
    ensures RenderAll(c'.gen.code[|c.gen.code|..]) == ["li $a0, '\\n'", "li $v0, 11", "syscall"]
  {
    var c' := Emit(c, EndlCode);
    assert c'.gen.code[|c.gen.code|..] == EndlCode;
    EndlText();
    c'
  }

  const EndlCode: seq<Instr> := [Li(A0, "'\\n'"), Li(V0, "11"), Syscall]

  lemma EndlText()
    ensures RenderAll(EndlCode) == ["li $a0, '\\n'", "li $v0, 11", "syscall"]
  {
    assert Render(EndlCode[0]) == "li $a0, '\\n'";
    assert Render(EndlCode[1]) == "li $v0, 11";
  }

  /** The print service `syscall` performs for a record, if the record's type has one. */
  function PrintService(rec: ExpRec): Option<string>
  {
    if rec.ty == 'i' then Some("1")
    else if rec.ty == 'c' then Some("11")
    else if rec.ty == 's' && !rec.indirect then Some("4")
    else None
  }

  /**
   * `genCodeCout(rec)`: the value (or, for a string, its label's address)
   * into `$a0`, the print service into `$v0`, then exactly one `syscall`,
   * which ends the emitted code.
   */
  function GenCodeCout(c: Ctx, rec: ExpRec): (c': Ctx)
    ensures c.gen.code <= c'.gen.code
    ensures var added := c'.gen.code[|c.gen.code|..];
      && |added| > 0 && added[|added| - 1] == Syscall && Syscall !in added[..|added| - 1]
      && (PrintService(rec).Some? ==> |added| >= 2 && added[|added| - 2] == Li(V0, PrintService(rec).value))
      && (!rec.indirect && rec.ty == 's' ==> added == [La(A0, rec.locLabel), Li(V0, "4"), Syscall])
      && (rec.indirect ==> |added| > 3 && added[3] == Lw(A0, Indirect(RotationReg(c.regIndex))))
    ensures var added := c'.gen.code[|c.gen.code|..];
      && (!rec.indirect && IsScalar(rec.ty) ==> added == [Lw(A0, Stack(rec.loc)), Li(V0, PrintService(rec).value), Syscall])
      && (rec.indirect ==> added == AddressCode(c.regIndex, rec) + [Lw(A0, Indirect(RotationReg(c.regIndex)))]
                                    + (if IsScalar(rec.ty) then [Li(V0, PrintService(rec).value)] else []) + [Syscall])
      && (!rec.indirect && !IsScalar(rec.ty) && rec.ty != 's' ==> added == [Syscall])
    ensures c'.regIndex == After(c.regIndex, rec)
    ensures c'.table == c.table && c'.labels == c.labels
    ensures c'.gen.offset == c.gen.offset && c'.gen.statics == c.gen.statics
  {
    var (c1, body) := CoutLoad(c, rec);
    var c' := Emit(c1, body + [Syscall]);
    var added := AddressCode(c.regIndex, rec) + body + [Syscall];
    assert c'.gen.code == c.gen.code + added by {
      AppendAssoc(c.gen.code, AddressCode(c.regIndex, rec), body + [Syscall]);
      AppendAssoc(AddressCode(c.regIndex, rec), body, [Syscall]);
    }
    SliceOfAppend(c.gen.code, added);
    CoutShape(c, rec, added);
    c'
  }

  /**
   * The lines `genCodeCout` appends, case by case: the address computation
   * of an indirect record, the load into `$a0`, the print service, and one
   * closing `syscall`.
   */
  lemma CoutShape(c: Ctx, rec: ExpRec, added: seq<Instr>)
    requires added == AddressCode(c.regIndex, rec) + CoutLoad(c, rec).1 + [Syscall]
    ensures |added| > 0 && added[|added| - 1] == Syscall && Syscall !in added[..|added| - 1]
    ensures PrintService(rec).Some? ==> |added| >= 2 && added[|added| - 2] == Li(V0, PrintService(rec).value)
    ensures !rec.indirect && rec.ty == 's' ==> added == [La(A0, rec.locLabel), Li(V0, "4"), Syscall]
    ensures rec.indirect ==> |added| > 3 && added[3] == Lw(A0, Indirect(RotationReg(c.regIndex)))
    ensures !rec.indirect && IsScalar(rec.ty) ==> added == [Lw(A0, Stack(rec.loc)), Li(V0, PrintService(rec).value), Syscall]
    ensures rec.indirect ==> added == AddressCode(c.regIndex, rec) + [Lw(A0, Indirect(RotationReg(c.regIndex)))]
                                      + (if IsScalar(rec.ty) then [Li(V0, PrintService(rec).value)] else []) + [Syscall]
    ensures !rec.indirect && !IsScalar(rec.ty) && rec.ty != 's' ==> added == [Syscall]
  {
    var body := CoutLoad(c, rec).1;
    if rec.indirect {
      var load := [Lw(A0, Indirect(RotationReg(c.regIndex)))] + (if IsScalar(rec.ty) then [Li(V0, PrintService(rec).value)] else []);
      assert body == load;
      assert added[..|added| - 1] == AddressCode(c.regIndex, rec) + load;
    } else {
      assert added == body + [Syscall];
      assert added[..|added| - 1] == body;
    }
  }

  /** The part of `genCodeCout` before its `syscall`. */
  function CoutLoad(c: Ctx, rec: ExpRec): (r: (Ctx, seq<Instr>))
    ensures r.0 == c.(gen := c.gen.(code := c.gen.code + AddressCode(c.regIndex, rec)), regIndex := After(c.regIndex, rec))
    ensures IsScalar(rec.ty) ==> r.1 == [Lw(A0, OperandAt(c.regIndex, rec)), Li(V0, PrintService(rec).value)]
    ensures rec.indirect && !IsScalar(rec.ty) ==> r.1 == [Lw(A0, OperandAt(c.regIndex, rec))]
    ensures !rec.indirect && rec.ty == 's' ==> r.1 == [La(A0, rec.locLabel), Li(V0, "4")]
    ensures !rec.indirect && !IsScalar(rec.ty) && rec.ty != 's' ==> r.1 == []
  {
    if rec.indirect then
      var (c1, a) := AddSPAndOffset(c, rec.loc);
      assert c1.gen.code[|c.gen.code|..] == [Move(T(0), SP), Lw(T(1), Stack(rec.loc)), Alu(Add, RotationReg(c.regIndex), T(0), T(1))];
      (c1, [Lw(A0, a)] + (if rec.ty == 'i' then [Li(V0, "1")] else if rec.ty == 'c' then [Li(V0, "11")] else []))
    else if rec.ty == 'i' then (c, [Lw(A0, Stack(rec.loc)), Li(V0, "1")])
    else if rec.ty == 'c' then (c, [Lw(A0, Stack(rec.loc)), Li(V0, "11")])
    else if rec.ty == 's' then (c, [La(A0, rec.locLabel), Li(V0, "4")])
    else (c, [])
  }

  // ---------------------------------------------------------------------
  // Declarations and blocks
  // ---------------------------------------------------------------------

  /** The declared type is `int` or `char` and the declarator is well formed. */
  predicate DeclAccepted(ty: string, name: string)
  {
    (ty == "int" || ty == "char") && ParseDeclarator(name).Ok?
  }

  /**
   * `varDecl(type, name)`: a variable (or an array of `n` words) of type
   * `int` or `char`, allocated at the cursor, which then moves down by its
   * size. Declaring a name twice in one scope is an error; the cursor has
   * already moved when that error is raised.
   */
  function VarDecl(c: Ctx, ty: string, name: string): (r: Step<()>)
    requires DeclAccepted(ty, name) ==> HasScope(c.table)
    ensures ty != "int" && ty != "char" ==> r == Abort(c, InvalidType(ty))
    ensures (ty == "int" || ty == "char") && ParseDeclarator(name).Err? ==> r == Abort(c, InvalidArrayDeclaration)
    ensures DeclAccepted(ty, name) ==>
      var (base, size) := ParseDeclarator(name).value;
      && (r.Done? <==> base !in Innermost(c.table))
      && r.ctx.gen == c.gen.(offset := c.gen.offset - 4 * size)
      && r.ctx.labels == c.labels && r.ctx.regIndex == c.regIndex
      && (r.Abort? ==> r.ctx.table == c.table && r.error == SymbolExists(base))
      && (r.Done? ==> r.ctx.table == Insert(c.table, Symbol(base, ty[0], c.gen.offset, size)))
  {
    if ty != "int" && ty != "char" then Abort(c, InvalidType(ty))
    else
      match ParseDeclarator(name)
      case Err(e) => Abort(c, e)
      case Ok((base, size)) =>
        var (c1, loc) := Alloc(c, size);
        if Find(c.table, base).Some? then Abort(c1, SymbolExists(base))
        else Done(c1.(table := Insert(c.table, Symbol(base, ty[0], loc, size))), ())
  }

  /** `enterBlock`. */
  function EnterBlock(c: Ctx): (c': Ctx)
    ensures c' == c.(table := EnterNewScope(c.table))
    ensures HasScope(c'.table) && Innermost(c'.table) == map[]
  {
    c.(table := EnterNewScope(c.table))
  }

  /** `exitBlock`. */
  function ExitBlock(c: Ctx): (c': Ctx)
    requires HasScope(c.table)
    ensures c' == c.(table := LeaveScope(c.table))
    ensures c'.table.active == c.table.active[..|c.table.active| - 1]
  {
    c.(table := LeaveScope(c.table))
  }

  // ---------------------------------------------------------------------
  // Properties relating several actions
  // ---------------------------------------------------------------------

  /**
   * A declared variable is visible to every later reference in its scope:
   * looking it up gives the symbol at the cursor's old position, of the
   * declared type and size.
   */
  lemma DeclareThenReference(c: Ctx, ty: string, name: string)
    requires DeclAccepted(ty, name) && HasScope(c.table)
    requires VarDecl(c, ty, name).Done?
    ensures var (base, size) := ParseDeclarator(name).value;
      var c' := VarDecl(c, ty, name).ctx;
      && Lookup(c'.table, base) == Ok(Symbol(base, ty[0], c.gen.offset, size))
      && CreateExpRecForSymbol(c', base) == Done(c', ExpRec(ty[0], c.gen.offset, "", false))
  {
    var (base, size) := ParseDeclarator(name).value;
    var c' := VarDecl(c, ty, name).ctx;
    assert Innermost(c'.table) == Innermost(c.table)[base := Symbol(base, ty[0], c.gen.offset, size)];
    assert c'.table.active[|c'.table.active| - 1] == Innermost(c'.table);
    assert '[' !in base;
  }

  /** Declaring the same name twice in one scope fails the second time. */
  lemma RedeclarationFails(c: Ctx, ty: string, name: string)
    requires DeclAccepted(ty, name) && HasScope(c.table)
    requires VarDecl(c, ty, name).Done?
    ensures VarDecl(VarDecl(c, ty, name).ctx, ty, name).Abort?
    ensures VarDecl(VarDecl(c, ty, name).ctx, ty, name).error == SymbolExists(ParseDeclarator(name).value.0)
  {
  }

  /** Inside a new block the same name may be declared again. */
  lemma ShadowingInNewBlock(c: Ctx, ty: string, name: string)
    requires DeclAccepted(ty, name)
    ensures VarDecl(EnterBlock(c), ty, name).Done?
  {
  }

  /**
   * Two blocks one after the other may each declare the same name: the
   * first declaration is retired with its block, and the second is a
   * different symbol, in the words after the first one's, that resolves on
   * its own while its block is open.
   */
  lemma SequentialBlocksKeepApart(c: Ctx, ty: string, name: string)
    requires DeclAccepted(ty, name)
    ensures var (base, size) := ParseDeclarator(name).value;
      var first := VarDecl(EnterBlock(c), ty, name);
      && first.Done?
      && ExitBlock(first.ctx).table.retired == c.table.retired + [map[base := Symbol(base, ty[0], c.gen.offset, size)]]
      && var second := VarDecl(EnterBlock(ExitBlock(first.ctx)), ty, name);
      && second.Done?
      && Lookup(second.ctx.table, base) == Ok(Symbol(base, ty[0], c.gen.offset - 4 * size, size))
      && c.gen.offset - 4 * size < c.gen.offset
  {
    var (base, size) := ParseDeclarator(name).value;
    BlockRetiresDeclaration(c, ty, name);
    var c1 := ExitBlock(VarDecl(EnterBlock(c), ty, name).ctx);
    DeclarationVisibleInBlock(c1, ty, name);
  }

  /** A block holding one declaration retires exactly that declaration and keeps the cursor moved. */
  lemma BlockRetiresDeclaration(c: Ctx, ty: string, name: string)
    requires DeclAccepted(ty, name)
    ensures var (base, size) := ParseDeclarator(name).value;
      var first := VarDecl(EnterBlock(c), ty, name);
      && first.Done?
      && ExitBlock(first.ctx).table.retired == c.table.retired + [map[base := Symbol(base, ty[0], c.gen.offset, size)]]
      && ExitBlock(first.ctx).table.active == c.table.active
      && ExitBlock(first.ctx).gen.offset == c.gen.offset - 4 * size
  {
    var (base, size) := ParseDeclarator(name).value;
    DeclareInFreshBlock(c, ty, name);
    var first := VarDecl(EnterBlock(c), ty, name);
    assert Innermost(first.ctx.table) == map[base := Symbol(base, ty[0], c.gen.offset, size)];
  }

  /** The first declaration of a new block is what `lookup` then finds under its name. */
  lemma DeclarationVisibleInBlock(c: Ctx, ty: string, name: string)
    requires DeclAccepted(ty, name)
    ensures var (base, size) := ParseDeclarator(name).value;
      var r := VarDecl(EnterBlock(c), ty, name);
      && r.Done?
      && Lookup(r.ctx.table, base) == Ok(Symbol(base, ty[0], c.gen.offset, size))
  {
    var (base, size) := ParseDeclarator(name).value;
    DeclareInFreshBlock(c, ty, name);
    InnerShadowsOuter(c.table, Symbol(base, ty[0], c.gen.offset, size));
  }

  /** A declaration as the first one of a new block: it always succeeds, into a scope of its own. */
  lemma DeclareInFreshBlock(c: Ctx, ty: string, name: string)
    requires DeclAccepted(ty, name)
    ensures var (base, size) := ParseDeclarator(name).value;
      var r := VarDecl(EnterBlock(c), ty, name);
      && r.Done?
      && r.ctx.table.active == c.table.active + [map[base := Symbol(base, ty[0], c.gen.offset, size)]]
      && r.ctx.table.retired == c.table.retired
      && r.ctx.gen == c.gen.(offset := c.gen.offset - 4 * size)
      && r.ctx.table == Insert(EnterNewScope(c.table), Symbol(base, ty[0], c.gen.offset, size))
  {
    var (base, size) := ParseDeclarator(name).value;
    var c0 := EnterBlock(c);
    var r := VarDecl(c0, ty, name);
    assert r.ctx.table == Insert(c0.table, Symbol(base, ty[0], c.gen.offset, size));
    assert c0.table.active[..|c0.table.active| - 1] == c.table.active;
  }

  /**
   * A literal subscript `k` with `0 <= k < n` into an array declared with
   * `n` words stays inside the array's words: between its lowest word and
   * the word at its base offset.
   */
  lemma LiteralSubscriptInBounds(c: Ctx, sym: Symbol, k: int)
    requires HasScope(c.table) && FindAll(c.table, sym.name) == Some(sym)
    requires '[' !in sym.name && 0 <= k < sym.size
    ensures var r := CreateExpRecForSymbol(c, sym.name + "[" + IntToString(k) + "]");
      && r.Done? && r.ctx == c
      && sym.loc - 4 * (sym.size - 1) <= r.value.loc <= sym.loc
  {
    LiteralSubscriptRoundTrip(sym.name, k);
  }

  /**
   * An assignment may store an `int` into a `char`, but not a `char` into an
   * `int`, and a string into neither.
   */
  lemma AssignmentCoercion(c: Ctx, target: ExpRec, value: ExpRec)
    ensures target.ty == 'c' && value.ty == 'i' ==> GenCodeAssignment(c, target, value).Done?
    ensures target.ty == 'i' && value.ty == 'c' ==> GenCodeAssignment(c, target, value) == Abort(c, AssignmentTypes)
    ensures IsScalar(target.ty) && value.ty == 's' ==> GenCodeAssignment(c, target, value).Abort?
  {
  }
}
