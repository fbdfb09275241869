/**
 * The code generator: the stack-offset cursor, the instruction list and the
 * static-string pool, and the layout of the emitted assembly file.
 *
 * Each emitted line is an `Instr`; `Render` gives its exact text. The file
 * itself is modelled as its list of lines (opening and closing the stream
 * are not modelled).
 */
module CodeGenerator {
  import opened Decimal

  /** The registers the emitted code names. `T(k)` is `$tk`. */
  datatype Reg = T(k: nat) | V0 | A0 | SP | Zero

  /** A memory operand: `off($sp)`, or an address already held in a register, `($tk)`. */
  datatype Addr = Stack(off: int) | Indirect(reg: Reg)

  datatype AluOp = Slt | Sgt | Add | Sub | Seq | Or | And | Sne

  /** One line of the program body. */
  datatype Instr =
    | Lw(rd: Reg, src: Addr)
    | Sw(rs: Reg, dst: Addr)
    | Li(rd: Reg, imm: string)
    | La(rd: Reg, sym: string)
    | Move(rd: Reg, rs: Reg)
    | Alu(op: AluOp, rd: Reg, rs: Reg, rt: Reg)
    | Mult(rs: Reg, rt: Reg)
    | Div(rs: Reg, rt: Reg)
    | Mflo(rd: Reg)
    | Beqz(rs: Reg, target: string)
    | B(target: string)
    | LabelDef(name: string)
    | Syscall

  function RegText(r: Reg): string
  {
    match r
    case T(k) => "$t" + NatToString(k)
    case V0 => "$v0"
    case A0 => "$a0"
    case SP => "$sp"
    case Zero => "$zero"
  }

  function AddrText(a: Addr): string
  {
    match a
    case Stack(off) => IntToString(off) + "($sp)"
    case Indirect(r) => "(" + RegText(r) + ")"
  }

  function AluText(op: AluOp): string
  {
    match op
    case Slt => "slt"
    case Sgt => "sgt"
    case Add => "add"
    case Sub => "sub"
    case Seq => "seq"
    case Or => "or"
    case And => "and"
    case Sne => "sne"
  }

  /** The text `genCode` receives for each instruction. */
  function Render(i: Instr): string
  {
    match i
    case Lw(rd, a) => "lw " + RegText(rd) + ", " + AddrText(a)
    case Sw(rs, a) => "sw " + RegText(rs) + ", " + AddrText(a)
    case Li(rd, imm) => "li " + RegText(rd) + ", " + imm
    case La(rd, l) => "la " + RegText(rd) + ", " + l
    case Move(rd, rs) => "move " + RegText(rd) + ", " + RegText(rs)
    case Alu(op, rd, rs, rt) => AluText(op) + " " + RegText(rd) + ", " + RegText(rs) + ", " + RegText(rt)
    case Mult(rs, rt) => "mult " + RegText(rs) + ", " + RegText(rt)
    case Div(rs, rt) => "div " + RegText(rs) + ", " + RegText(rt)
    case Mflo(rd) => "mflo " + RegText(rd)
    case Beqz(rs, l) => "beqz " + RegText(rs) + ", " + l
    case B(l) => "b " + l
    case LabelDef(l) => l + ":"
    case Syscall => "syscall"
  }

  /** Code-generator state: the offset cursor, the body, the string pool. */
  datatype Gen = Gen(offset: int, code: seq<Instr>, statics: seq<string>)

  /** The cursor starts at 0; body and pool start empty. */
  const Initial: Gen := Gen(0, [], [])

  /** `getCurrOffsetAndUpdate(words)`: the cursor's value, then the cursor moved down `4 * words` bytes. */
  function GetCurrOffsetAndUpdate(g: Gen, words: int): (r: (Gen, int))
    ensures r.1 == g.offset
    ensures r.0.offset == g.offset - 4 * words
    ensures r.0.code == g.code && r.0.statics == g.statics
  {
    (g.(offset := g.offset - 4 * words), g.offset)
  }

  /** `genCode`: one more line at the end of the body. */
  function GenCode(g: Gen, i: Instr): (g': Gen)
    ensures g'.code == g.code + [i]
    ensures g'.offset == g.offset && g'.statics == g.statics
  {
    g.(code := g.code + [i])
  }

  /** Consecutive `genCode` calls, one per instruction, in order. */
  function GenCodeAll(g: Gen, instrs: seq<Instr>): (g': Gen)
    ensures g'.code == g.code + instrs
    ensures g'.offset == g.offset && g'.statics == g.statics
    decreases |instrs|
  {
    if instrs == [] then g else GenCodeAll(GenCode(g, instrs[0]), instrs[1..])
  }

  /** The pool entry `addStaticString` builds for a label and a string literal. */
  function StaticEntry(name: string, lexeme: string): string
  {
    name + ": \t\t .asciiz " + lexeme
  }

  /** `addStaticString`: one more entry at the end of the pool. */
  function AddStaticString(g: Gen, name: string, lexeme: string): (g': Gen)
    ensures g'.statics == g.statics + [StaticEntry(name, lexeme)]
    ensures g'.offset == g.offset && g'.code == g.code
  {
    g.(statics := g.statics + [StaticEntry(name, lexeme)])
  }

  // ---------------------------------------------------------------------
  // The file
  // ---------------------------------------------------------------------

  /** `writeProlog`, line by line; the last line is the blank one after the comment. */
  const Prolog: seq<string> := [
    "# Prolog:",
    ".text",
    "main:",
    "move $fp $sp",
    "la $a0 ProgStart",
    "li $v0 4",
    "syscall",
    "# End of Prolog",
    ""
  ]

  /** `writePostlog` up to the static strings; the first line is the blank one before the comment. */
  const Postlog: seq<string> := [
    "",
    "# Postlog:",
    "la $a0 ProgEnd",
    "li $v0 4",
    "syscall",
    "li $v0 10",
    "syscall",
    ".data",
    "ProgStart: \t .asciiz \"Program Start\\n\"",
    "ProgEnd:   \t .asciiz \"Program End\\n\""
  ]

  function RenderAll(code: seq<Instr>): (lines: seq<string>)
    ensures |lines| == |code|
    ensures forall i :: 0 <= i < |code| ==> lines[i] == Render(code[i])
  {
    seq(|code|, i requires 0 <= i < |code| => Render(code[i]))
  }

  /**
   * The lines of the output file: prolog, body in emission order, postlog,
   * then the static strings in the order they were added.
   */
  function OutputFile(g: Gen): (lines: seq<string>)
    ensures |lines| == |Prolog| + |g.code| + |Postlog| + |g.statics|
    ensures lines[..|Prolog|] == Prolog
    ensures lines[|Prolog|..|Prolog| + |g.code|] == RenderAll(g.code)
    ensures lines[|Prolog| + |g.code|..|Prolog| + |g.code| + |Postlog|] == Postlog
    ensures lines[|Prolog| + |g.code| + |Postlog|..] == g.statics
  {
    var body := RenderAll(g.code);
    Concat4(Prolog, body, Postlog, g.statics);
    Prolog + body + Postlog + g.statics
  }

  lemma Concat4<X>(a: seq<X>, b: seq<X>, c: seq<X>, d: seq<X>)
    ensures var s := a + b + c + d;
      && s[..|a|] == a
      && s[|a|..|a| + |b|] == b
      && s[|a| + |b|..|a| + |b| + |c|] == c
      && s[|a| + |b| + |c|..] == d
  {
  }

  /** An emitted line lands just before the postlog; nothing else in the file moves. */
  lemma GenCodeInFile(g: Gen, i: Instr)
    ensures var k := |Prolog| + |g.code|;
      OutputFile(GenCode(g, i)) == OutputFile(g)[..k] + [Render(i)] + OutputFile(g)[k..]
  {
    var k := |Prolog| + |g.code|;
    assert OutputFile(g)[..k] == Prolog + RenderAll(g.code);
    assert RenderAll(g.code + [i]) == RenderAll(g.code) + [Render(i)];
  }

  /** An added string becomes the last line of the file. */
  lemma StaticStringInFile(g: Gen, name: string, lexeme: string)
    ensures OutputFile(AddStaticString(g, name, lexeme)) == OutputFile(g) + [StaticEntry(name, lexeme)]
  {
  }

  /** Neither emitting code nor adding a string moves the cursor; allocating emits nothing. */
  lemma EmissionAndAllocationIndependent(g: Gen, i: Instr, name: string, lexeme: string, words: int)
    ensures GenCode(g, i).offset == g.offset
    ensures AddStaticString(g, name, lexeme).offset == g.offset
    ensures OutputFile(GetCurrOffsetAndUpdate(g, words).0) == OutputFile(g)
  {
  }

  // ---------------------------------------------------------------------
  // Successive allocations
  // ---------------------------------------------------------------------

  function Sum(sizes: seq<int>): int
  {
    if sizes == [] then 0 else Sum(sizes[..|sizes| - 1]) + sizes[|sizes| - 1]
  }

  /** A run of `getCurrOffsetAndUpdate` calls with the given word counts. */
  function Allocate(g: Gen, sizes: seq<int>): (r: (Gen, seq<int>))
    ensures |r.1| == |sizes|
    decreases |sizes|
  {
    if sizes == [] then (g, [])
    else
      var (g1, off) := GetCurrOffsetAndUpdate(g, sizes[0]);
      var (g2, offs) := Allocate(g1, sizes[1..]);
      (g2, [off] + offs)
  }

  lemma {:induction false} SumSplit(sizes: seq<int>, i: nat)
    requires i < |sizes|
    ensures Sum(sizes[..i + 1]) == Sum(sizes[..i]) + sizes[i]
  {
    assert sizes[..i + 1][..i] == sizes[..i];
  }

  lemma {:induction false} SumFront(sizes: seq<int>)
    requires |sizes| > 0
    ensures Sum(sizes) == sizes[0] + Sum(sizes[1..])
    decreases |sizes|
  {
    if |sizes| > 1 {
      SumFront(sizes[..|sizes| - 1]);
      assert sizes[..|sizes| - 1][1..] == sizes[1..][..|sizes| - 2];
      assert sizes[..|sizes| - 1][0] == sizes[0];
    } else {
      assert sizes[..0] == [] && sizes[1..] == [];
    }
  }

  /** The i-th allocation returns the start offset minus four bytes per word allocated before it. */
  lemma {:induction false} AllocateAt(g: Gen, sizes: seq<int>, i: nat)
    requires i < |sizes|
    ensures Allocate(g, sizes).1[i] == g.offset - 4 * Sum(sizes[..i])
    decreases i
  {
    if i > 0 {
      var g1 := GetCurrOffsetAndUpdate(g, sizes[0]).0;
      AllocateAt(g1, sizes[1..], i - 1);
      assert Allocate(g, sizes).1[i] == Allocate(g1, sizes[1..]).1[i - 1];
      assert sizes[..i][1..] == sizes[1..][..i - 1];
      SumFront(sizes[..i]);
    } else {
      assert sizes[..0] == [];
    }
  }

  /** After the run the cursor is down by four bytes per word; code and pool are untouched. */
  lemma {:induction false} AllocateFinal(g: Gen, sizes: seq<int>)
    ensures Allocate(g, sizes).0 == g.(offset := g.offset - 4 * Sum(sizes))
    decreases |sizes|
  {
    if sizes != [] {
      AllocateFinal(GetCurrOffsetAndUpdate(g, sizes[0]).0, sizes[1..]);
      SumFront(sizes);
    }
  }

  lemma {:induction false} SumPrefixGrows(sizes: seq<int>, i: nat, j: nat)
    requires i < j <= |sizes|
    requires forall k :: 0 <= k < |sizes| ==> sizes[k] > 0
    ensures Sum(sizes[..j]) >= Sum(sizes[..i]) + sizes[i]
    decreases j - i
  {
    SumSplit(sizes, j - 1);
    if j - 1 > i {
      SumPrefixGrows(sizes, i, j - 1);
    } else {
      assert j - 1 == i;
    }
  }

  /**
   * With positive sizes, successive offsets follow `off[i+1] == off[i] - 4*size[i]`,
   * start at the cursor, and the word ranges never overlap: every later
   * allocation lies entirely below every element of an earlier one.
   */
  lemma AllocationsDisjoint(g: Gen, sizes: seq<int>)
    requires forall k :: 0 <= k < |sizes| ==> sizes[k] > 0
    ensures var offs := Allocate(g, sizes).1;
      && (|offs| > 0 ==> offs[0] == g.offset)
      && (forall i :: 0 <= i < |offs| - 1 ==> offs[i + 1] == offs[i] - 4 * sizes[i])
      && (forall i, j :: 0 <= i < j < |offs| ==> offs[j] + 4 <= offs[i] - 4 * (sizes[i] - 1))
  {
    var offs := Allocate(g, sizes).1;
    if |offs| > 0 {
      AllocateAt(g, sizes, 0);
    }
    forall i | 0 <= i < |offs| - 1
      ensures offs[i + 1] == offs[i] - 4 * sizes[i]
    {
      AllocateAt(g, sizes, i);
      AllocateAt(g, sizes, i + 1);
      SumSplit(sizes, i);
    }
    forall i, j | 0 <= i < j < |offs|
      ensures offs[j] + 4 <= offs[i] - 4 * (sizes[i] - 1)
    {
      AllocateAt(g, sizes, i);
      AllocateAt(g, sizes, j);
      SumPrefixGrows(sizes, i, j);
    }
  }
}
