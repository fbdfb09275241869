/**
 * Sequences of semantic actions, as the parser issues them while it reads
 * one program, and what holds across any such sequence: the body and the
 * string pool only grow, the offset cursor only moves down in whole words,
 * the name and label counters only rise, and the first error ends the run
 * with no further output.
 */
module Programs {
  import opened Wrappers
  import opened Errors
  import opened Decimal
  import opened Declarators
  import opened Symbols
  import opened SymbolTable
  import opened CodeGenerator
  import opened Semantics

  /** One parser callback with its arguments. */
  datatype Action =
    | EnterBlockAction
    | ExitBlockAction
    | Declare(ty: string, name: string)
    | Reference(name: string)
    | LitNum(lexeme: string)
    | LitStr(lexeme: string)
    | Binary(left: ExpRec, right: ExpRec, op: char)
    | Assign(target: ExpRec, value: ExpRec)
    | BranchOnZero(cond: ExpRec)
    | BranchBack(branchTo: string, exit: string)
    | BranchAndLabel(lbl: string)
    | PlaceLabel(lbl: string)
    | PlaceFreshLabel
    | Cin(name: string)
    | Cout(rec: ExpRec)
    | Endl

  /** What a callback hands back to the parser. */
  datatype Out = Nothing | Record(rec: ExpRec) | LabelOut(name: string)

  /**
   * Whether the action reaches the innermost scope (and so needs one):
   * every path through the source that calls `back()` on the active list.
   */
  predicate NeedsScope(a: Action)
  {
    match a
    case ExitBlockAction => true
    case Declare(ty, name) => DeclAccepted(ty, name)
    case Reference(_) => true
    case LitStr(_) => true
    case Binary(l, r, _) => IsScalar(l.ty) && IsScalar(r.ty)
    case Cin(_) => true
    case _ => false
  }

  /** The number of active scopes after the action. */
  function DepthAfter(a: Action, depth: nat): nat
  {
    match a
    case EnterBlockAction => depth + 1
    case ExitBlockAction => if depth > 0 then depth - 1 else 0
    case _ => depth
  }

  /** No action of the sequence reaches for a scope when none is active. */
  predicate WellScoped(depth: nat, actions: seq<Action>)
    decreases |actions|
  {
    actions == [] ||
    ((NeedsScope(actions[0]) ==> depth > 0) && WellScoped(DepthAfter(actions[0], depth), actions[1..]))
  }

  /** One callback. */
  function Apply(c: Ctx, a: Action): (r: Step<Out>)
    requires NeedsScope(a) ==> HasScope(c.table)
    ensures |r.ctx.table.active| == DepthAfter(a, |c.table.active|)
  {
    match a
    case EnterBlockAction => Done(EnterBlock(c), Nothing)
    case ExitBlockAction => Done(ExitBlock(c), Nothing)
    case Declare(ty, name) =>
      (match VarDecl(c, ty, name)
       case Done(c1, _) => Done(c1, Nothing)
       case Abort(c1, e) => Abort(c1, e))
    case Reference(name) =>
      (match CreateExpRecForSymbol(c, name)
       case Done(c1, rec) => Done(c1, Record(rec))
       case Abort(c1, e) => Abort(c1, e))
    case LitNum(lexeme) =>
      var (c1, rec) := GenCodeLitNum(c, lexeme);
      Done(c1, Record(rec))
    case LitStr(lexeme) =>
      var (c1, rec) := GenCodeLitStr(c, lexeme);
      Done(c1, Record(rec))
    case Binary(l, r, op) =>
      (match GenCodeExpr(c, l, r, op)
       case Done(c1, rec) => Done(c1, Record(rec))
       case Abort(c1, e) => Abort(c1, e))
    case Assign(target, value) =>
      (match GenCodeAssignment(c, target, value)
       case Done(c1, _) => Done(c1, Nothing)
       case Abort(c1, e) => Abort(c1, e))
    case _ => ApplyFlow(c, a)
  }

  /** Whether the action is a branch, a label or a stream callback. */
  predicate IsFlow(a: Action)
  {
    a.BranchOnZero? || a.BranchBack? || a.BranchAndLabel? || a.PlaceLabel? || a.PlaceFreshLabel?
    || a.Cin? || a.Cout? || a.Endl?
  }

  /** The branch, label and stream callbacks: none opens or closes a scope. */
  function ApplyFlow(c: Ctx, a: Action): (r: Step<Out>)
    requires IsFlow(a) && (NeedsScope(a) ==> HasScope(c.table))
    ensures |r.ctx.table.active| == |c.table.active|
  {
    match a
    case BranchOnZero(cond) =>
      var (c1, l) := GenBranchOnZero(c, cond);
      Done(c1, LabelOut(l))
    case BranchBack(branchTo, exit) => Done(GenBranchAndLabelTo(c, branchTo, exit), Nothing)
    case BranchAndLabel(lbl) =>
      var (c1, l) := GenBranchAndLabel(c, lbl);
      Done(c1, LabelOut(l))
    case PlaceLabel(lbl) =>
      var (c1, l) := GenLabelStmtNamed(c, lbl);
      Done(c1, LabelOut(l))
    case PlaceFreshLabel =>
      var (c1, l) := GenLabelStmt(c);
      Done(c1, LabelOut(l))
    case Cin(name) =>
      (match GenCodeCin(c, name)
       case Done(c1, _) => Done(c1, Nothing)
       case Abort(c1, e) => Abort(c1, e))
    case Cout(rec) => Done(GenCodeCout(c, rec), Nothing)
    case Endl => Done(GenCodeEndl(c), Nothing)
  }

  /**
   * A run of callbacks: each one sees the context the previous one left;
   * the first error ends the run with that error and that context.
   */
  function Run(c: Ctx, actions: seq<Action>): (r: Step<seq<Out>>)
    requires WellScoped(|c.table.active|, actions)
    decreases |actions|
  {
    if actions == [] then Done(c, [])
    else
      match Apply(c, actions[0])
      case Abort(c1, e) => Abort(c1, e)
      case Done(c1, v) =>
        match Run(c1, actions[1..])
        case Done(c2, vs) => Done(c2, [v] + vs)
        case Abort(c2, e) => Abort(c2, e)
  }

  /**
   * A run is the chain of its callbacks: when each callback takes the
   * state the previous one left to the next, the run ends in the last state
   * with the callbacks' results in order.
   */
  lemma {:induction false} RunOfSteps(cs: seq<Ctx>, actions: seq<Action>, outs: seq<Out>)
    requires |cs| == |actions| + 1 && |outs| == |actions|
    requires forall i :: 0 <= i < |actions| ==> NeedsScope(actions[i]) ==> HasScope(cs[i].table)
    requires forall i :: 0 <= i < |actions| ==> Apply(cs[i], actions[i]) == Done(cs[i + 1], outs[i])
    ensures WellScoped(|cs[0].table.active|, actions)
    ensures Run(cs[0], actions) == Done(cs[|actions|], outs)
    decreases |actions|
  {
    if actions != [] {
      assert Apply(cs[0], actions[0]) == Done(cs[1], outs[0]);
      RunOfSteps(cs[1..], actions[1..], outs[1..]);
      assert [outs[0]] + outs[1..] == outs;
    }
  }

  /**
   * `d` is a later state than `c`: body and pool extended at the end, the
   * cursor lower by whole words, counters no smaller, retired scopes kept.
   */
  predicate Grows(c: Ctx, d: Ctx)
  {
    && c.gen.code <= d.gen.code
    && c.gen.statics <= d.gen.statics
    && d.gen.offset <= c.gen.offset
    && (c.gen.offset - d.gen.offset) % 4 == 0
    && c.table.counter <= d.table.counter
    && c.labels <= d.labels
    && c.table.retired <= d.table.retired
  }

  lemma GrowsTransitive(a: Ctx, b: Ctx, c: Ctx)
    requires Grows(a, b) && Grows(b, c)
    ensures Grows(a, c)
  {
    var k1 := (a.gen.offset - b.gen.offset) / 4;
    var k2 := (b.gen.offset - c.gen.offset) / 4;
    assert a.gen.offset - c.gen.offset == 4 * (k1 + k2);
    WordsAreAligned(k1 + k2);
  }

  lemma WordsAreAligned(words: int)
    ensures (4 * words) % 4 == 0
  {
  }

  /**
   * Every callback only moves the state forward; one that throws has
   * emitted nothing, pooled nothing and left the symbol table as it was.
   */
  lemma ApplyGrows(c: Ctx, a: Action)
    requires NeedsScope(a) ==> HasScope(c.table)
    ensures Grows(c, Apply(c, a).ctx)
    ensures Apply(c, a).Abort? ==>
      var d := Apply(c, a).ctx;
      d.gen.code == c.gen.code && d.gen.statics == c.gen.statics && d.table == c.table
  {
    if a.EnterBlockAction? || a.ExitBlockAction? {
      ScopeStepGrows(c, a);
    } else if a.Declare? {
      DeclareStepGrows(c, a);
    } else if a.Reference? {
      ReferenceStepGrows(c, a);
    } else if a.Cin? {
      CinStepGrows(c, a);
    } else if a.LitNum? || a.LitStr? {
      LiteralStepGrows(c, a);
    } else if a.Binary? {
      BinaryStepGrows(c, a);
    } else if a.Assign? {
      AssignStepGrows(c, a);
    } else if a.BranchOnZero? || a.BranchBack? || a.BranchAndLabel? {
      BranchStepGrows(c, a);
    } else if a.PlaceLabel? || a.PlaceFreshLabel? {
      LabelStepGrows(c, a);
    } else {
      OutputStepGrows(c, a);
    }
  }

  /** `ApplyGrows` for the callbacks that open and close blocks. */
  lemma ScopeStepGrows(c: Ctx, a: Action)
    requires a.EnterBlockAction? || a.ExitBlockAction?
    requires NeedsScope(a) ==> HasScope(c.table)
    ensures Grows(c, Apply(c, a).ctx)
    ensures Apply(c, a).Abort? ==>
      var d := Apply(c, a).ctx;
      d.gen.code == c.gen.code && d.gen.statics == c.gen.statics && d.table == c.table
  {
  }

  /** `ApplyGrows` for `varDecl`. */
  lemma DeclareStepGrows(c: Ctx, a: Action)
    requires a.Declare?
    requires NeedsScope(a) ==> HasScope(c.table)
    ensures Grows(c, Apply(c, a).ctx)
    ensures Apply(c, a).Abort? ==>
      var d := Apply(c, a).ctx;
      d.gen.code == c.gen.code && d.gen.statics == c.gen.statics && d.table == c.table
  {
    DeclareGrows(c, a.ty, a.name);
  }

  /** `ApplyGrows` for references. */
  lemma ReferenceStepGrows(c: Ctx, a: Action)
    requires a.Reference?
    requires NeedsScope(a) ==> HasScope(c.table)
    ensures Grows(c, Apply(c, a).ctx)
    ensures Apply(c, a).Abort? ==>
      var d := Apply(c, a).ctx;
      d.gen.code == c.gen.code && d.gen.statics == c.gen.statics && d.table == c.table
  {
    assert Apply(c, a).ctx == CreateExpRecForSymbol(c, a.name).ctx;
    ReferenceGrows(c, a.name);
  }

  /** `ApplyGrows` for input. */
  lemma CinStepGrows(c: Ctx, a: Action)
    requires a.Cin?
    requires NeedsScope(a) ==> HasScope(c.table)
    ensures Grows(c, Apply(c, a).ctx)
    ensures Apply(c, a).Abort? ==>
      var d := Apply(c, a).ctx;
      d.gen.code == c.gen.code && d.gen.statics == c.gen.statics && d.table == c.table
  {
    assert Apply(c, a).ctx == GenCodeCin(c, a.name).ctx;
    CinGrows(c, a.name);
  }

  /** `ApplyGrows` for literals. */
  lemma LiteralStepGrows(c: Ctx, a: Action)
    requires a.LitNum? || a.LitStr?
    requires NeedsScope(a) ==> HasScope(c.table)
    ensures Grows(c, Apply(c, a).ctx)
    ensures Apply(c, a).Abort? ==>
      var d := Apply(c, a).ctx;
      d.gen.code == c.gen.code && d.gen.statics == c.gen.statics && d.table == c.table
  {
  }

  /** `ApplyGrows` for operators. */
  lemma BinaryStepGrows(c: Ctx, a: Action)
    requires a.Binary?
    requires NeedsScope(a) ==> HasScope(c.table)
    ensures Grows(c, Apply(c, a).ctx)
    ensures Apply(c, a).Abort? ==>
      var d := Apply(c, a).ctx;
      d.gen.code == c.gen.code && d.gen.statics == c.gen.statics && d.table == c.table
  {
    BinaryGrows(c, a.left, a.right, a.op);
  }

  /** `ApplyGrows` for assignment. */
  lemma AssignStepGrows(c: Ctx, a: Action)
    requires a.Assign?
    requires NeedsScope(a) ==> HasScope(c.table)
    ensures Grows(c, Apply(c, a).ctx)
    ensures Apply(c, a).Abort? ==>
      var d := Apply(c, a).ctx;
      d.gen.code == c.gen.code && d.gen.statics == c.gen.statics && d.table == c.table
  {
    CodeOnlyGrows(c, Apply(c, a).ctx);
  }

  /** `ApplyGrows` for branches. */
  lemma BranchStepGrows(c: Ctx, a: Action)
    requires a.BranchOnZero? || a.BranchBack? || a.BranchAndLabel?
    requires NeedsScope(a) ==> HasScope(c.table)
    ensures Grows(c, Apply(c, a).ctx)
    ensures Apply(c, a).Abort? ==>
      var d := Apply(c, a).ctx;
      d.gen.code == c.gen.code && d.gen.statics == c.gen.statics && d.table == c.table
  {
    CodeOnlyGrows(c, Apply(c, a).ctx);
  }

  /** `ApplyGrows` for label placement. */
  lemma LabelStepGrows(c: Ctx, a: Action)
    requires a.PlaceLabel? || a.PlaceFreshLabel?
    requires NeedsScope(a) ==> HasScope(c.table)
    ensures Grows(c, Apply(c, a).ctx)
    ensures Apply(c, a).Abort? ==>
      var d := Apply(c, a).ctx;
      d.gen.code == c.gen.code && d.gen.statics == c.gen.statics && d.table == c.table
  {
    CodeOnlyGrows(c, Apply(c, a).ctx);
  }

  /** `ApplyGrows` for output. */
  lemma OutputStepGrows(c: Ctx, a: Action)
    requires a.Cout? || a.Endl?
    requires NeedsScope(a) ==> HasScope(c.table)
    ensures Grows(c, Apply(c, a).ctx)
    ensures Apply(c, a).Abort? ==>
      var d := Apply(c, a).ctx;
      d.gen.code == c.gen.code && d.gen.statics == c.gen.statics && d.table == c.table
  {
    CodeOnlyGrows(c, Apply(c, a).ctx);
  }

  /** A callback that only appends code, and perhaps draws labels, moves the state forward. */
  lemma CodeOnlyGrows(c: Ctx, d: Ctx)
    requires d.table == c.table && d.gen.offset == c.gen.offset && d.gen.statics == c.gen.statics
    requires c.gen.code <= d.gen.code && c.labels <= d.labels
    ensures Grows(c, d)
  {
    ForwardStep(c, d, 0);
  }

  /** A callback that appends, allocates whole words and keeps the retired scopes moves the state forward. */
  lemma ForwardStep(c: Ctx, d: Ctx, words: nat)
    requires c.gen.code <= d.gen.code && c.gen.statics <= d.gen.statics
    requires d.gen.offset == c.gen.offset - 4 * words
    requires c.table.counter <= d.table.counter && c.labels <= d.labels && d.table.retired == c.table.retired
    ensures Grows(c, d)
  {
    WordsAreAligned(words);
  }

  lemma BinaryGrows(c: Ctx, l: ExpRec, r: ExpRec, op: char)
    requires IsScalar(l.ty) && IsScalar(r.ty) ==> HasScope(c.table)
    ensures Grows(c, GenCodeExpr(c, l, r, op).ctx)
  {
    var d := GenCodeExpr(c, l, r, op).ctx;
    if IsScalar(l.ty) && IsScalar(r.ty) {
      assert d.table.retired == c.table.retired by {
        var t1 := GetTemp(c.table, 'i', c.gen.offset).0;
        assert t1.retired == c.table.retired;
      }
      ForwardStep(c, d, 1);
    } else {
      assert d == c;
      ForwardStep(c, d, 0);
    }
  }

  lemma DeclareGrows(c: Ctx, ty: string, name: string)
    requires DeclAccepted(ty, name) ==> HasScope(c.table)
    ensures Grows(c, VarDecl(c, ty, name).ctx)
    ensures VarDecl(c, ty, name).Abort? ==>
      var d := VarDecl(c, ty, name).ctx;
      d.gen.code == c.gen.code && d.gen.statics == c.gen.statics && d.table == c.table
  {
    var r := VarDecl(c, ty, name);
    if !DeclAccepted(ty, name) {
      assert r.ctx == c;
      ForwardStep(c, r.ctx, 0);
    } else {
      var (base, size) := ParseDeclarator(name).value;
      if r.Done? {
        assert r.ctx.table == Insert(c.table, Symbol(base, ty[0], c.gen.offset, size));
      }
      ForwardStep(c, r.ctx, size);
    }
  }

  lemma ReferenceGrows(c: Ctx, name: string)
    requires HasScope(c.table)
    ensures Grows(c, CreateExpRecForSymbol(c, name).ctx)
  {
    var (base, sub) := ParseReference(name);
    var r := CreateExpRecForSymbol(c, name);
    if r.Done? && sub.Ident? {
      assert r.ctx.table == GetTemp(c.table, NoType, c.gen.offset).0;
      ForwardStep(c, r.ctx, 1);
    } else {
      assert r.ctx == c;
      ForwardStep(c, r.ctx, 0);
    }
  }

  lemma CinGrows(c: Ctx, name: string)
    requires HasScope(c.table)
    ensures Grows(c, GenCodeCin(c, name).ctx)
  {
    var r1 := CreateExpRecForSymbol(c, name);
    ReferenceGrows(c, name);
    if r1.Done? {
      var (c2, dest) := Operand(r1.ctx, r1.value);
      assert c2.table == r1.ctx.table && c2.gen.offset == r1.ctx.gen.offset && c2.gen.statics == r1.ctx.gen.statics;
      assert r1.ctx.gen.code <= c2.gen.code;
      var d := GenCodeCin(c, name).ctx;
      assert d == c2 || d == Emit(c2, [Li(V0, ReadService(r1.value.ty)), Syscall, Sw(V0, dest)]);
      CodeOnlyGrows(r1.ctx, d);
      GrowsTransitive(c, r1.ctx, d);
    }
  }

  /** The same along a whole run, whether it completes or stops at an error. */
  lemma {:induction false} RunGrows(c: Ctx, actions: seq<Action>)
    requires WellScoped(|c.table.active|, actions)
    ensures Grows(c, Run(c, actions).ctx)
    decreases |actions|
  {
    if actions != [] {
      ApplyGrows(c, actions[0]);
      var r := Apply(c, actions[0]);
      if r.Done? {
        RunGrows(r.ctx, actions[1..]);
        GrowsTransitive(c, r.ctx, Run(c, actions).ctx);
      }
    }
  }

  /** A run that completes hands back one result per callback. */
  lemma {:induction false} RunOutputs(c: Ctx, actions: seq<Action>)
    requires WellScoped(|c.table.active|, actions)
    ensures Run(c, actions).Done? ==> |Run(c, actions).value| == |actions|
    decreases |actions|
  {
    if actions != [] && Apply(c, actions[0]).Done? {
      RunOutputs(Apply(c, actions[0]).ctx, actions[1..]);
    }
  }

  /** From the start state the cursor stays a non-positive multiple of four, complete run or not. */
  lemma RunFromStart(actions: seq<Action>)
    requires WellScoped(0, actions)
    ensures var g := Run(Start, actions).ctx.gen;
      && g.offset <= 0 && g.offset % 4 == 0
  {
    RunGrows(Start, actions);
  }

  /**
   * A run that throws part-way leaves exactly the output of the callbacks
   * before it: running on after the error point is never reached.
   */
  lemma {:induction false} ErrorStopsOutput(c: Ctx, actions: seq<Action>, k: nat)
    requires WellScoped(|c.table.active|, actions)
    requires k < |actions| && WellScoped(|c.table.active|, actions[..k])
    requires Run(c, actions[..k]).Done?
    requires NeedsScope(actions[k]) ==> HasScope(Run(c, actions[..k]).ctx.table)
    requires Apply(Run(c, actions[..k]).ctx, actions[k]).Abort?
    ensures Run(c, actions).Abort?
    ensures Run(c, actions).ctx.gen.code == Run(c, actions[..k]).ctx.gen.code
    ensures Run(c, actions).error == Apply(Run(c, actions[..k]).ctx, actions[k]).error
    decreases k
  {
    if k == 0 {
      ApplyGrows(c, actions[0]);
    } else {
      var r := Apply(c, actions[0]);
      assert actions[..k][0] == actions[0];
      assert actions[..k][1..] == actions[1..][..k - 1];
      ErrorStopsOutput(r.ctx, actions[1..], k - 1);
    }
  }
}
