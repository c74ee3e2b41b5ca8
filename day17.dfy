/** Day 17: a three-bit computer. Programs are stored as a bit vector, three
    bits per value, least significant bit first. The machine has registers A,
    B and C, a program counter counted in bits, and an output list. Part 2
    searches for a value of A that makes the hard-coded program print itself,
    using a hand-translated version of the program (the pseudo computer). */
module Day17 {
  import opened Utils
  import opened Numbers

  /** Rust usize values lie below 2^64. */
  const WORD: nat := 0x1_0000_0000_0000_0000

  /** Exclusive-or of two usize values is a usize value. */
  lemma XorBelowWord(x: nat, y: nat)
    ensures x < WORD && y < WORD ==> Xor(x, y) < WORD
  {
    if x < WORD && y < WORD {
      Pow2Of64();
      XorBound(x, y, 64);
    }
  }

  /** The exponent of `2usize.pow` is first cast to u32. */
  const U32_RANGE: nat := 0x1_0000_0000

  datatype ThreeBitError = InvalidBitCount

  datatype ParseEntityError = InvalidProgramFormat

  datatype Opcode = ADV | BXL | BST | JNZ | BXC | OUT | BDV | CDV

  /** The opcodes in the order of their 3-bit codes 0 .. 7. */
  const OPCODES: seq<Opcode> := [ADV, BXL, BST, JNZ, BXC, OUT, BDV, CDV]

  /** The 3-bit code of an opcode. */
  function CodeOf(op: Opcode): (v: nat)
    ensures v < 8 && OPCODES[v] == op
  {
    match op
    case ADV => 0
    case BXL => 1
    case BST => 2
    case JNZ => 3
    case BXC => 4
    case OUT => 5
    case BDV => 6
    case CDV => 7
  }

  /** Every code 0 .. 7 names exactly one opcode. */
  lemma OpcodeCodesRoundTrip(v: nat)
    requires v < 8
    ensures CodeOf(OPCODES[v]) == v
  {
  }

  function BitAsU8(b: bool): bv8
  {
    if b then 1 else 0
  }

  function BitValue(b: bool): nat
  {
    if b then 1 else 0
  }

  /** The u8 built from three bits with shifts and bitwise or. */
  function PackBits(b0: bool, b1: bool, b2: bool): bv8
  {
    BitAsU8(b0) | (BitAsU8(b1) << 1) | (BitAsU8(b2) << 2)
  }

  /** The shifted bits do not overlap, so the or is a sum. */
  lemma PackBitsIsSum(b0: bool, b1: bool, b2: bool)
    ensures PackBits(b0, b1, b2) as nat == BitValue(b0) + 2 * BitValue(b1) + 4 * BitValue(b2)
  {
    if b0 {
      if b1 { if b2 { assert PackBits(b0, b1, b2) == 7; } else { assert PackBits(b0, b1, b2) == 3; } }
      else { if b2 { assert PackBits(b0, b1, b2) == 5; } else { assert PackBits(b0, b1, b2) == 1; } }
    } else {
      if b1 { if b2 { assert PackBits(b0, b1, b2) == 6; } else { assert PackBits(b0, b1, b2) == 2; } }
      else { if b2 { assert PackBits(b0, b1, b2) == 4; } else { assert PackBits(b0, b1, b2) == 0; } }
    }
  }

  /** Reads three bits, least significant first, as a number below 8: the
      value of PackBits, written as the sum it equals. */
  function U8From3BitValue(value: seq<bool>): (r: Result<nat, ThreeBitError>)
    ensures r.Ok? <==> |value| == 3
    ensures r.Ok? ==> r.value < 8
  {
    if |value| != 3 then Err(InvalidBitCount)
    else Ok(BitValue(value[0]) + 2 * BitValue(value[1]) + 4 * BitValue(value[2]))
  }

  /** Three bits are read as the u8 that the shifts and the or build. */
  lemma ReadIsPacked(value: seq<bool>)
    requires |value| == 3
    ensures U8From3BitValue(value) == Ok(PackBits(value[0], value[1], value[2]) as nat)
  {
    PackBitsIsSum(value[0], value[1], value[2]);
  }

  function OpcodeTryFrom(value: seq<bool>): (r: Result<Opcode, ThreeBitError>)
    ensures r.Ok? <==> |value| == 3
    ensures r.Ok? ==> CodeOf(r.value) == U8From3BitValue(value).value
  {
    match U8From3BitValue(value)
    case Err(e) => Err(e)
    case Ok(v) => Ok(OPCODES[v])
  }

  /** The three low bits of a u8, least significant first. */
  function StoreInstruction(opcode: nat): (bits: seq<bool>)
    requires opcode < 256
    ensures |bits| == 3
  {
    var b := opcode as bv8;
    [b & 1 == 1, b & 2 == 2, b & 4 == 4]
  }

  /** The masks 1, 2 and 4 test the binary digits of the value. */
  lemma StoreInstructionBits(opcode: nat)
    requires opcode < 256
    ensures StoreInstruction(opcode) == [opcode % 2 == 1, opcode / 2 % 2 == 1, opcode / 4 % 2 == 1]
  {
    var b := opcode as bv8;
    assert (b & 1 == 1) == (opcode % 2 == 1);
    assert (b & 2 == 2) == (opcode / 2 % 2 == 1);
    assert (b & 4 == 4) == (opcode / 4 % 2 == 1);
  }

  /** Storing a value and reading it back gives the value modulo 8. */
  lemma StoreThenRead(opcode: nat)
    requires opcode < 256
    ensures U8From3BitValue(StoreInstruction(opcode)) == Ok(opcode % 8)
  {
    StoreInstructionBits(opcode);
    LowThreeBits(opcode);
  }

  /** Reading three bits and storing the value gives the same bits back. */
  lemma ReadThenStore(bits: seq<bool>)
    requires |bits| == 3
    ensures StoreInstruction(U8From3BitValue(bits).value) == bits
  {
  }

  predicate AllU8(values: seq<nat>)
  {
    forall i :: 0 <= i < |values| ==> values[i] < 256
  }

  /** The bit vector for a list of values: three bits per value. */
  function Encode(values: seq<nat>): (bits: seq<bool>)
    requires AllU8(values)
    ensures |bits| == 3 * |values|
  {
    if values == [] then []
    else Encode(values[..|values| - 1]) + StoreInstruction(values[|values| - 1])
  }

  lemma EncodeSnoc(values: seq<nat>, v: nat)
    requires AllU8(values) && v < 256
    ensures AllU8(values + [v])
    ensures Encode(values + [v]) == Encode(values) + StoreInstruction(v)
  {
    assert (values + [v])[..|values|] == values;
  }

  /** The i-th three-bit window of an encoded program holds the i-th value. */
  lemma {:induction false} EncodeWindow(values: seq<nat>, i: nat)
    requires AllU8(values) && i < |values|
    ensures Encode(values)[3 * i .. 3 * i + 3] == StoreInstruction(values[i])
    ensures U8From3BitValue(Encode(values)[3 * i .. 3 * i + 3]) == Ok(values[i] % 8)
  {
    var init := values[..|values| - 1];
    if i < |values| - 1 {
      EncodeWindow(init, i);
      assert Encode(values)[3 * i .. 3 * i + 3] == Encode(init)[3 * i .. 3 * i + 3];
    } else {
      assert Encode(values)[3 * i .. 3 * i + 3] == StoreInstruction(values[i]);
    }
    StoreThenRead(values[i]);
  }

  /** The decimal digits of a string, or None when one is not a digit. */
  function DecimalValue(s: string): Option<nat>
  {
    if s == [] then Some(0)
    else
      match DecimalValue(s[..|s| - 1])
      case None => None
      case Some(v) =>
        var d := s[|s| - 1];
        if '0' <= d <= '9' then Some(10 * v + (d as int - '0' as int)) else None
  }

  /** Parsing one comma-separated piece as a u8. */
  function ParseU8(s: string): (r: Option<nat>)
    ensures r.Some? <==> s != [] && DecimalValue(s).Some? && DecimalValue(s).value < 256
    ensures r.Some? ==> r.value < 256
  {
    if s == [] then None
    else
      match DecimalValue(s)
      case None => None
      case Some(v) => if v < 256 then Some(v) else None
  }

  predicate AllParse(pieces: seq<string>)
  {
    forall i :: 0 <= i < |pieces| ==> ParseU8(pieces[i]).Some?
  }

  function ParsedValues(pieces: seq<string>): (values: seq<nat>)
    requires AllParse(pieces)
    ensures |values| == |pieces| && AllU8(values)
  {
    seq(|pieces|, i requires 0 <= i < |pieces| => ParseU8(pieces[i]).value)
  }

  /** One more parsed piece adds its three bits to the encoded prefix. */
  lemma ParsedPrefixStep(pieces: seq<string>, i: nat)
    requires i < |pieces| && AllParse(pieces[..i]) && ParseU8(pieces[i]).Some?
    ensures AllParse(pieces[..i + 1])
    ensures Encode(ParsedValues(pieces[..i + 1]))
      == Encode(ParsedValues(pieces[..i])) + StoreInstruction(ParseU8(pieces[i]).value)
  {
    var v := ParseU8(pieces[i]).value;
    assert pieces[..i + 1] == pieces[..i] + [pieces[i]];
    assert ParsedValues(pieces[..i + 1]) == ParsedValues(pieces[..i]) + [v];
    EncodeSnoc(ParsedValues(pieces[..i]), v);
  }

  /** Builds the program bit vector from the comma-separated pieces after
      "Program: "; any piece that is not a u8 makes the whole program invalid. */
  method ParseProgram(pieces: seq<string>) returns (r: Result<seq<bool>, ParseEntityError>)
    ensures r.Ok? <==> AllParse(pieces)
    ensures r.Ok? ==> r.value == Encode(ParsedValues(pieces))
  {
    var code: seq<bool> := [];
    var i := 0;
    while i < |pieces|
      invariant 0 <= i <= |pieces|
      invariant AllParse(pieces[..i])
      invariant code == Encode(ParsedValues(pieces[..i]))
    {
      var instruction := ParseU8(pieces[i]);
      if instruction.None? {
        return Err(InvalidProgramFormat);
      }
      ParsedPrefixStep(pieces, i);
      code := code + StoreInstruction(instruction.value);
      i := i + 1;
    }
    assert pieces[..i] == pieces;
    return Ok(code);
  }

  /** The machine state as a value: registers, program counter (in bits) and output. */
  datatype Machine = Machine(a: nat, b: nat, c: nat, pc: nat, output: seq<nat>)

  predicate RegistersFit(m: Machine)
  {
    m.a < WORD && m.b < WORD && m.c < WORD
  }

  /** Combo operands 0-3 are literals, 4-6 name the registers. */
  function Combo(m: Machine, operand: nat): nat
    requires operand < 7
  {
    if operand <= 3 then operand
    else if operand == 4 then m.a
    else if operand == 5 then m.b
    else m.c
  }

  predicate UsesCombo(op: Opcode)
  {
    op == ADV || op == BST || op == OUT || op == BDV || op == CDV
  }

  predicate DividesByCombo(op: Opcode)
  {
    op == ADV || op == BDV || op == CDV
  }

  /** The divisor 2^combo; the exponent is taken modulo 2^32 by the u32 cast. */
  function Divisor(m: Machine, operand: nat): nat
    requires operand < 7
  {
    Pow2(Combo(m, operand) % U32_RANGE)
  }

  /** When an instruction runs without a panic: combo operand 7 is
      unreachable, and 2^exponent must fit a usize (exponent below 64). */
  predicate CanExecute(m: Machine, op: Opcode, operand: nat)
  {
    operand < 8
    && (UsesCombo(op) ==> operand < 7)
    && (DividesByCombo(op) ==> Combo(m, operand) % U32_RANGE < 64)
  }

  /** The effect of one instruction. */
  function Execute(m: Machine, op: Opcode, operand: nat): Machine
    requires CanExecute(m, op, operand)
  {
    match op
    case ADV => m.(a := m.a / Divisor(m, operand), pc := m.pc + 6)
    case BXL => m.(b := Xor(m.b, operand), pc := m.pc + 6)
    case BST => m.(b := Combo(m, operand) % 8, pc := m.pc + 6)
    case JNZ => if m.a != 0 then m.(pc := operand) else m.(pc := m.pc + 6)
    case BXC => m.(b := Xor(m.b, m.c), pc := m.pc + 6)
    case OUT => m.(output := m.output + [Combo(m, operand) % 8], pc := m.pc + 6)
    case BDV => m.(b := m.a / Divisor(m, operand), pc := m.pc + 6)
    case CDV => m.(c := (m.a / Divisor(m, operand)) % 8, pc := m.pc + 6)
  }

  /** Every instruction but JNZ moves to the next instruction; JNZ jumps to
      its operand exactly when A is not 0. */
  lemma ExecuteControl(m: Machine, op: Opcode, operand: nat)
    requires CanExecute(m, op, operand)
    ensures op != JNZ ==> Execute(m, op, operand).pc == m.pc + 6
    ensures op == JNZ ==> Execute(m, op, operand).pc == if m.a != 0 then operand else m.pc + 6
  {
  }

  /** Only ADV writes A, and it never grows; only CDV writes C; B and C
      written by BST and CDV are three-bit values. */
  lemma ExecuteRegisters(m: Machine, op: Opcode, operand: nat)
    requires CanExecute(m, op, operand)
    ensures var r := Execute(m, op, operand);
      && r.a <= m.a && (r.a != m.a ==> op == ADV)
      && (r.b != m.b ==> op == BXL || op == BST || op == BXC || op == BDV)
      && (r.c != m.c ==> op == CDV)
      && (op == BST ==> r.b < 8)
      && (op == CDV ==> r.c < 8)
  {
    if op == ADV {
      DivAtMost(m.a, Divisor(m, operand));
    }
  }

  /** OUT appends one three-bit value to the output; nothing else writes it. */
  lemma ExecuteOutput(m: Machine, op: Opcode, operand: nat)
    requires CanExecute(m, op, operand)
    ensures var r := Execute(m, op, operand);
      && (op == OUT ==> r.output == m.output + [r.output[|m.output|]] && r.output[|m.output|] < 8)
      && (op != OUT ==> r.output == m.output)
  {
  }

  /** Registers stay usize values: division only shrinks, exclusive-or of two
      usize values is one, and three-bit values are small. */
  lemma ExecuteFits(m: Machine, op: Opcode, operand: nat)
    requires CanExecute(m, op, operand) && RegistersFit(m)
    ensures RegistersFit(Execute(m, op, operand))
  {
    match op
    case ADV => DivAtMost(m.a, Divisor(m, operand));
    case BXL => XorBelowWord(m.b, operand);
    case BXC => XorBelowWord(m.b, m.c);
    case BDV => DivAtMost(m.a, Divisor(m, operand));
    case _ =>
  }

  /** The opcode and operand at bit position pc. */
  function Fetch(program: seq<bool>, pc: nat): (Opcode, nat)
    requires pc + 6 <= |program|
  {
    (OpcodeTryFrom(program[pc .. pc + 3]).value, U8From3BitValue(program[pc + 3 .. pc + 6]).value)
  }

  /** One step runs without a panic: both windows lie inside the program and
      the instruction itself can execute. */
  predicate CanStep(m: Machine, program: seq<bool>)
  {
    m.pc + 6 <= |program| && CanExecute(m, Fetch(program, m.pc).0, Fetch(program, m.pc).1)
  }

  function Step(m: Machine, program: seq<bool>): Machine
    requires CanStep(m, program)
  {
    Execute(m, Fetch(program, m.pc).0, Fetch(program, m.pc).1)
  }

  /** Result of running for a bounded number of steps: halted (pc reached the
      end of the program after a step), still running, or stopped by a panic. */
  datatype Outcome = Halted(m: Machine) | Running(m: Machine) | Faulted(m: Machine)

  /** Up to fuel steps, stopping as soon as the program counter equals the
      program length after a step. */
  function RunFor(m: Machine, program: seq<bool>, fuel: nat): Outcome
    decreases fuel
  {
    if fuel == 0 then Running(m)
    else if !CanStep(m, program) then Faulted(m)
    else
      var next := Step(m, program);
      if next.pc == |program| then Halted(next) else RunFor(next, program, fuel - 1)
  }

  /** A run only appends to the output and keeps the registers usize values;
      it halts only at the end of the program and faults only where no step
      can run. */
  lemma {:induction false} RunForFacts(m: Machine, program: seq<bool>, fuel: nat)
    ensures var r := RunFor(m, program, fuel);
      && m.output <= r.m.output
      && (RegistersFit(m) ==> RegistersFit(r.m))
      && (r.Halted? ==> r.m.pc == |program|)
      && (r.Faulted? ==> !CanStep(r.m, program))
    decreases fuel
  {
    if fuel > 0 && CanStep(m, program) {
      var next := Step(m, program);
      ExecuteOutput(m, Fetch(program, m.pc).0, Fetch(program, m.pc).1);
      if RegistersFit(m) {
        ExecuteFits(m, Fetch(program, m.pc).0, Fetch(program, m.pc).1);
      }
      if next.pc != |program| {
        RunForFacts(next, program, fuel - 1);
      }
    }
  }

  /** The empty program panics on its first step instead of halting. */
  lemma EmptyProgramFaults(m: Machine, fuel: nat)
    requires fuel > 0
    ensures RunFor(m, [], fuel) == Faulted(m)
  {
  }

  /** The computer: registers in a fixed array, the program, pc and output. */
  class Computer {
    const registers: array<nat>
    const program: seq<bool>
    var pc: nat
    var output: seq<nat>

    ghost predicate Valid()
      reads this, registers
    {
      registers.Length == 3 && RegistersFit(State())
    }

    function State(): Machine
      reads this, registers
      requires registers.Length == 3
    {
      Machine(registers[0], registers[1], registers[2], pc, output)
    }

    constructor (regs: seq<nat>, program: seq<bool>)
      requires |regs| == 3 && regs[0] < WORD && regs[1] < WORD && regs[2] < WORD
      ensures Valid() && fresh(registers) && this.program == program
      ensures State() == Machine(regs[0], regs[1], regs[2], 0, [])
    {
      var r := new nat[3];
      r[0], r[1], r[2] := regs[0], regs[1], regs[2];
      registers := r;
      this.program := program;
      pc := 0;
      output := [];
    }

    /** Starts over with A = a, B = C = 0, pc = 0 and no output. */
    method Reset(a: nat)
      requires Valid() && a < WORD
      modifies this, registers
      ensures Valid() && State() == Machine(a, 0, 0, 0, [])
    {
      pc := 0;
      registers[0] := a;
      registers[1] := 0;
      registers[2] := 0;
      output := [];
    }

    function OperandToCombo(operand: nat): (v: nat)
      reads this, registers
      requires Valid() && operand < 7
      ensures v == Combo(State(), operand)
    {
      match operand
      case 0 => operand
      case 1 => operand
      case 2 => operand
      case 3 => operand
      case 4 => registers[0]
      case 5 => registers[1]
      case 6 => registers[2]
    }

    method Adv(operand: nat)
      requires Valid() && CanExecute(State(), ADV, operand)
      modifies this, registers
      ensures Valid() && State() == Execute(old(State()), ADV, operand)
    {
      ExecuteFits(State(), ADV, operand);
      var combo := OperandToCombo(operand);
      registers[0] := registers[0] / Pow2(combo % U32_RANGE);
      pc := pc + 6;
    }

    method Bxl(operand: nat)
      requires Valid() && CanExecute(State(), BXL, operand)
      modifies this, registers
      ensures Valid() && State() == Execute(old(State()), BXL, operand)
    {
      ExecuteFits(State(), BXL, operand);
      registers[1] := Xor(registers[1], operand);
      pc := pc + 6;
    }

    method Bst(operand: nat)
      requires Valid() && CanExecute(State(), BST, operand)
      modifies this, registers
      ensures Valid() && State() == Execute(old(State()), BST, operand)
    {
      ExecuteFits(State(), BST, operand);
      var combo := OperandToCombo(operand);
      registers[1] := combo % 8;
      pc := pc + 6;
    }

    method Jnz(operand: nat)
      requires Valid() && CanExecute(State(), JNZ, operand)
      modifies this
      ensures Valid() && State() == Execute(old(State()), JNZ, operand)
    {
      if registers[0] != 0 {
        pc := operand;
      } else {
        pc := pc + 6;
      }
    }

    method Bxc(operand: nat)
      requires Valid() && CanExecute(State(), BXC, operand)
      modifies this, registers
      ensures Valid() && State() == Execute(old(State()), BXC, operand)
    {
      ExecuteFits(State(), BXC, operand);
      registers[1] := Xor(registers[1], registers[2]);
      pc := pc + 6;
    }

    method Out(operand: nat)
      requires Valid() && CanExecute(State(), OUT, operand)
      modifies this
      ensures Valid() && State() == Execute(old(State()), OUT, operand)
    {
      ExecuteFits(State(), OUT, operand);
      var combo := OperandToCombo(operand) % 8;
      output := output + [combo];
      pc := pc + 6;
    }

    method Bdv(operand: nat)
      requires Valid() && CanExecute(State(), BDV, operand)
      modifies this, registers
      ensures Valid() && State() == Execute(old(State()), BDV, operand)
    {
      ExecuteFits(State(), BDV, operand);
      var combo := OperandToCombo(operand);
      registers[1] := registers[0] / Pow2(combo % U32_RANGE);
      pc := pc + 6;
    }

    method Cdv(operand: nat)
      requires Valid() && CanExecute(State(), CDV, operand)
      modifies this, registers
      ensures Valid() && State() == Execute(old(State()), CDV, operand)
    {
      ExecuteFits(State(), CDV, operand);
      var combo := OperandToCombo(operand);
      registers[2] := (registers[0] / Pow2(combo % U32_RANGE)) % 8;
      pc := pc + 6;
    }

    /** Executes the instruction at pc; true when pc then equals the program length. */
    method Run() returns (halted: bool)
      requires Valid() && CanStep(State(), program)
      modifies this, registers
      ensures Valid() && State() == Step(old(State()), program)
      ensures halted <==> pc == |program|
    {
      var opcode := OpcodeTryFrom(program[pc .. pc + 3]).value;
      var operand := U8From3BitValue(program[pc + 3 .. pc + 6]).value;
      match opcode {
        case ADV => Adv(operand);
        case BXL => Bxl(operand);
        case BST => Bst(operand);
        case JNZ => Jnz(operand);
        case BXC => Bxc(operand);
        case OUT => Out(operand);
        case BDV => Bdv(operand);
        case CDV => Cdv(operand);
      }
      halted := pc == |program|;
    }

    /** The `while !computer.run()? {}` loop, for at most fuel steps; a step
        that would panic stops the loop with a Faulted outcome. */
    method RunToHalt(fuel: nat) returns (outcome: Outcome)
      requires Valid()
      modifies this, registers
      ensures Valid() && outcome == RunFor(old(State()), program, fuel)
      ensures State() == outcome.m
    {
      var steps := 0;
      while steps < fuel
        invariant 0 <= steps <= fuel
        invariant Valid()
        invariant RunFor(old(State()), program, fuel) == RunFor(State(), program, fuel - steps)
      {
        if !CanStep(State(), program) {
          return Faulted(State());
        }
        var halted := Run();
        if halted {
          return Halted(State());
        }
        steps := steps + 1;
      }
      return Running(State());
    }
  }

  /** The program the search is written for. */
  const CODE: seq<nat> := [2, 4, 1, 2, 7, 5, 4, 7, 1, 3, 5, 5, 0, 3, 3, 0]

  lemma CodeIsU8()
    ensures AllU8(CODE)
  {
  }

  lemma CodeBelow8(i: nat)
    requires i < |CODE|
    ensures CODE[i] % 8 == CODE[i]
  {
  }

  /** CODE as the bit vector the computer runs. */
  ghost function Program(): (bits: seq<bool>)
    ensures |bits| == 48
  {
    CodeIsU8();
    Encode(CODE)
  }

  /** A 48-bit program whose instruction k is the opcode CODE[2k] with the
      operand CODE[2k + 1]. */
  ghost predicate MatchesCode(p: seq<bool>)
  {
    |p| == 48
    && forall k :: 0 <= k < 8 ==> Fetch(p, 6 * k) == (OPCODES[CODE[2 * k]], CODE[2 * k + 1])
  }

  /** The same, instruction by instruction: BST 4, BXL 2, CDV 5, BXC 7,
      BXL 3, OUT 5, ADV 3, JNZ 0. */
  ghost predicate IsCodeProgram(p: seq<bool>)
  {
    |p| == 48
    && Fetch(p, 0) == (BST, 4) && Fetch(p, 6) == (BXL, 2)
    && Fetch(p, 12) == (CDV, 5) && Fetch(p, 18) == (BXC, 7)
    && Fetch(p, 24) == (BXL, 3) && Fetch(p, 30) == (OUT, 5)
    && Fetch(p, 36) == (ADV, 3) && Fetch(p, 42) == (JNZ, 0)
  }

  lemma CodeInstructions(p: seq<bool>)
    requires MatchesCode(p)
    ensures IsCodeProgram(p)
  {
    assert Fetch(p, 6 * 0) == (OPCODES[CODE[0]], CODE[1]);
    assert Fetch(p, 6 * 1) == (OPCODES[CODE[2]], CODE[3]);
    assert Fetch(p, 6 * 2) == (OPCODES[CODE[4]], CODE[5]);
    assert Fetch(p, 6 * 3) == (OPCODES[CODE[6]], CODE[7]);
    assert Fetch(p, 6 * 4) == (OPCODES[CODE[8]], CODE[9]);
    assert Fetch(p, 6 * 5) == (OPCODES[CODE[10]], CODE[11]);
    assert Fetch(p, 6 * 6) == (OPCODES[CODE[12]], CODE[13]);
    assert Fetch(p, 6 * 7) == (OPCODES[CODE[14]], CODE[15]);
  }

  /** Instruction k of an encoded program: the opcode from value 2k, the
      operand from value 2k + 1, each reduced to three bits. */
  lemma FetchEncoded(values: seq<nat>, k: nat)
    requires AllU8(values) && 2 * k + 1 < |values|
    ensures 6 * k + 6 <= |Encode(values)|
    ensures Fetch(Encode(values), 6 * k) == (OPCODES[values[2 * k] % 8], values[2 * k + 1] % 8)
  {
    var bits := Encode(values);
    EncodeWindow(values, 2 * k);
    EncodeWindow(values, 2 * k + 1);
    assert bits[6 * k .. 6 * k + 3] == bits[3 * (2 * k) .. 3 * (2 * k) + 3];
    assert bits[6 * k + 3 .. 6 * k + 6] == bits[3 * (2 * k + 1) .. 3 * (2 * k + 1) + 3];
    FetchWindows(bits, 6 * k, values[2 * k] % 8, values[2 * k + 1] % 8);
  }

  /** The instruction at pc is read from the two three-bit windows there. */
  lemma FetchWindows(bits: seq<bool>, pc: nat, x: nat, y: nat)
    requires pc + 6 <= |bits| && x < 8
    requires U8From3BitValue(bits[pc .. pc + 3]) == Ok(x)
    requires U8From3BitValue(bits[pc + 3 .. pc + 6]) == Ok(y)
    ensures Fetch(bits, pc) == (OPCODES[x], y)
  {
  }

  /** Decoding the encoded CODE gives back its eight instructions. */
  lemma ProgramDecodes()
    ensures IsCodeProgram(Program())
  {
    CodeIsU8();
    forall k | 0 <= k < 8
      ensures Fetch(Program(), 6 * k) == (OPCODES[CODE[2 * k]], CODE[2 * k + 1])
    {
      FetchEncoded(CODE, k);
      CodeBelow8(2 * k);
      CodeBelow8(2 * k + 1);
    }
    CodeInstructions(Program());
  }

  /** One output value of the hand-translated program: the three low bits of
      ((a mod 8) xor 2) xor (a >> ((a mod 8) xor 2)) xor 3. */
  function PseudoDigit(a: nat): (d: nat)
    ensures d < 8
  {
    var b := Xor(a % 8, 2);
    var c := Shr(a, b);
    Xor(Xor(b, c), 3) % 8
  }

  /** Everything the pseudo computer prints for an initial A. */
  function PseudoOutput(a: nat): (out: seq<nat>)
    decreases a
  {
    if a == 0 then [] else [PseudoDigit(a)] + PseudoOutput(a / 8)
  }

  /** The pseudo computer prints nothing exactly for A = 0, and only
      three-bit values. */
  lemma {:induction false} PseudoOutputShape(a: nat)
    ensures a == 0 <==> PseudoOutput(a) == []
    ensures forall i :: 0 <= i < |PseudoOutput(a)| ==> PseudoOutput(a)[i] < 8
    decreases a
  {
    if a > 0 {
      PseudoOutputShape(a / 8);
    }
  }

  /** The hand-translated program: one value per octal digit of a. */
  method PseudoComputer(a: nat, output: seq<nat>) returns (result: seq<nat>)
    ensures result == output + PseudoOutput(a)
  {
    var a': nat := a;
    result := output;
    while a' > 0
      invariant result + PseudoOutput(a') == output + PseudoOutput(a)
      decreases a'
    {
      var b: nat := a' % 8;
      b := Xor(b, 2);
      var c := Shr(a', b);
      b := Xor(b, c);
      b := Xor(b, 3);
      assert PseudoOutput(a') == [b % 8] + PseudoOutput(a' / 8);
      result := result + [b % 8];
      a' := a' / 8;
    }
  }

  /** The machine after one pass through the eight instructions. */
  function AfterPass(m: Machine): Machine
  {
    var b2 := Xor(m.a % 8, 2);
    var c := Shr(m.a, b2) % 8;
    var b5 := Xor(Xor(b2, c), 3);
    var a := m.a / 8;
    Machine(a, b5, c, if a != 0 then 0 else 48, m.output + [b5 % 8])
  }

  lemma XorLow3(x: nat, y: nat)
    ensures Xor(x, y) % 8 == Xor(x % 8, y % 8)
  {
    assert Pow2(3) == 8 by { assert Pow2(0) == 1; }
    XorLowBits(x, y, 3);
  }

  lemma XorBelow8(x: nat, y: nat)
    requires x < 8 && y < 8
    ensures Xor(x, y) < 8
  {
    assert Pow2(3) == 8 by { assert Pow2(0) == 1; }
    XorBound(x, y, 3);
  }

  /** Exclusive-or as a function value for the law-based lemmas below. */
  ghost function XorValue(x: nat, y: nat): nat
  {
    Xor(x, y)
  }

  /** The two facts about exclusive-or that the three-bit output relies on. */
  ghost predicate ThreeBitLaws(xor: (nat, nat) -> nat)
  {
    && (forall x: nat, y: nat :: xor(x, y) % 8 == xor(x % 8, y % 8))
    && (forall x: nat, y: nat :: x < 8 && y < 8 ==> xor(x, y) < 8)
  }

  lemma XorThreeBitLaws()
    ensures ThreeBitLaws(XorValue)
  {
    forall x: nat, y: nat
      ensures XorValue(x, y) % 8 == XorValue(x % 8, y % 8)
    {
      XorLow3(x, y);
    }
    forall x: nat, y: nat | x < 8 && y < 8
      ensures XorValue(x, y) < 8
    {
      XorBelow8(x, y);
    }
  }

  /** For any operation with those laws, reducing c to its three low bits
      before the two exclusive-ors leaves the three low bits of the result unchanged. */
  lemma MaskedChain(xor: (nat, nat) -> nat, b: nat, c: nat)
    requires ThreeBitLaws(xor) && b < 8
    ensures xor(xor(b, c % 8), 3) % 8 == xor(xor(b, c), 3) % 8
  {
    var c8 := c % 8;
    assert c8 % 8 == c8;
    assert b % 8 == b;
    var x := xor(b, c8);
    assert x % 8 == x;
    assert xor(b, c) % 8 == x;
  }

  /** Masking C to three bits, as the CDV instruction does, does not change
      the printed value: one pass prints the pseudo computer's digit for A
      and divides A by 8. */
  lemma PassPrintsPseudoDigit(m: Machine)
    ensures AfterPass(m).output == m.output + [PseudoDigit(m.a)]
    ensures AfterPass(m).a == m.a / 8
    ensures AfterPass(m).pc == if m.a / 8 != 0 then 0 else 48
  {
    var b := Xor(m.a % 8, 2);
    XorBelow8(m.a % 8, 2);
    XorThreeBitLaws();
    MaskedChain(XorValue, b, Shr(m.a, b));
  }

  lemma RunForUnfold(m: Machine, p: seq<bool>, fuel: nat)
    requires fuel > 0 && CanStep(m, p) && Step(m, p).pc != |p|
    ensures RunFor(m, p, fuel) == RunFor(Step(m, p), p, fuel - 1)
  {
  }

  /** The eight instructions of the program, one lemma each: what the step
      does and that the run goes on from the new state. */
  lemma RunBst(m: Machine, p: seq<bool>, fuel: nat)
    requires IsCodeProgram(p) && m.pc == 0 && fuel > 0
    ensures RunFor(m, p, fuel) == RunFor(m.(b := m.a % 8, pc := 6), p, fuel - 1)
  {
    assert Fetch(p, 0) == (BST, 4);
    assert CanStep(m, p) && Step(m, p) == Execute(m, BST, 4);
    RunForUnfold(m, p, fuel);
  }

  lemma RunBxl2(m: Machine, p: seq<bool>, fuel: nat)
    requires IsCodeProgram(p) && m.pc == 6 && fuel > 0
    ensures RunFor(m, p, fuel) == RunFor(m.(b := Xor(m.b, 2), pc := 12), p, fuel - 1)
  {
    assert Fetch(p, 6) == (BXL, 2);
    assert CanStep(m, p) && Step(m, p) == Execute(m, BXL, 2);
    RunForUnfold(m, p, fuel);
  }

  lemma RunCdv(m: Machine, p: seq<bool>, fuel: nat)
    requires IsCodeProgram(p) && m.pc == 12 && m.b < 8 && fuel > 0
    ensures RunFor(m, p, fuel) == RunFor(m.(c := Shr(m.a, m.b) % 8, pc := 18), p, fuel - 1)
  {
    assert Fetch(p, 12) == (CDV, 5);
    assert CanStep(m, p) && Step(m, p) == Execute(m, CDV, 5);
    assert m.b % U32_RANGE == m.b;
    ShrIsDiv(m.a, m.b);
    RunForUnfold(m, p, fuel);
  }

  lemma RunBxc(m: Machine, p: seq<bool>, fuel: nat)
    requires IsCodeProgram(p) && m.pc == 18 && fuel > 0
    ensures RunFor(m, p, fuel) == RunFor(m.(b := Xor(m.b, m.c), pc := 24), p, fuel - 1)
  {
    assert Fetch(p, 18) == (BXC, 7);
    assert CanStep(m, p) && Step(m, p) == Execute(m, BXC, 7);
    RunForUnfold(m, p, fuel);
  }

  lemma RunBxl3(m: Machine, p: seq<bool>, fuel: nat)
    requires IsCodeProgram(p) && m.pc == 24 && fuel > 0
    ensures RunFor(m, p, fuel) == RunFor(m.(b := Xor(m.b, 3), pc := 30), p, fuel - 1)
  {
    assert Fetch(p, 24) == (BXL, 3);
    assert CanStep(m, p) && Step(m, p) == Execute(m, BXL, 3);
    RunForUnfold(m, p, fuel);
  }

  lemma RunOut(m: Machine, p: seq<bool>, fuel: nat)
    requires IsCodeProgram(p) && m.pc == 30 && fuel > 0
    ensures RunFor(m, p, fuel) == RunFor(m.(output := m.output + [m.b % 8], pc := 36), p, fuel - 1)
  {
    assert Fetch(p, 30) == (OUT, 5);
    assert CanStep(m, p) && Step(m, p) == Execute(m, OUT, 5);
    RunForUnfold(m, p, fuel);
  }

  lemma RunAdv(m: Machine, p: seq<bool>, fuel: nat)
    requires IsCodeProgram(p) && m.pc == 36 && fuel > 0
    ensures RunFor(m, p, fuel) == RunFor(m.(a := m.a / 8, pc := 42), p, fuel - 1)
  {
    assert Fetch(p, 36) == (ADV, 3);
    assert CanStep(m, p) && Step(m, p) == Execute(m, ADV, 3);
    assert Pow2(3) == 8 by { assert Pow2(0) == 1; }
    assert 3 % U32_RANGE == 3;
    RunForUnfold(m, p, fuel);
  }

  /** The jump back to the start, or the halt once A is 0. */
  lemma RunJnz(m: Machine, p: seq<bool>, fuel: nat)
    requires IsCodeProgram(p) && m.pc == 42 && fuel > 0
    ensures RunFor(m, p, fuel) ==
      if m.a != 0 then RunFor(m.(pc := 0), p, fuel - 1) else Halted(m.(pc := 48))
  {
    assert Fetch(p, 42) == (JNZ, 0);
    assert CanStep(m, p) && Step(m, p) == Execute(m, JNZ, 0);
  }

  /** The pass through the loop body, two instructions at a time. */
  lemma RunTo12(m: Machine, p: seq<bool>, fuel: nat)
    requires IsCodeProgram(p) && m.pc == 0 && fuel >= 2
    ensures RunFor(m, p, fuel) == RunFor(m.(b := Xor(m.a % 8, 2), pc := 12), p, fuel - 2)
  {
    RunBst(m, p, fuel);
    RunBxl2(m.(b := m.a % 8, pc := 6), p, fuel - 1);
  }

  lemma RunTo24(m: Machine, p: seq<bool>, fuel: nat)
    requires IsCodeProgram(p) && m.pc == 12 && m.b < 8 && fuel >= 2
    ensures var c := Shr(m.a, m.b) % 8;
      RunFor(m, p, fuel) == RunFor(m.(b := Xor(m.b, c), c := c, pc := 24), p, fuel - 2)
  {
    var c := Shr(m.a, m.b) % 8;
    RunCdv(m, p, fuel);
    RunBxc(m.(c := c, pc := 18), p, fuel - 1);
  }

  lemma RunTo36(m: Machine, p: seq<bool>, fuel: nat)
    requires IsCodeProgram(p) && m.pc == 24 && fuel >= 2
    ensures var b := Xor(m.b, 3);
      RunFor(m, p, fuel) == RunFor(m.(b := b, output := m.output + [b % 8], pc := 36), p, fuel - 2)
  {
    RunBxl3(m, p, fuel);
    RunOut(m.(b := Xor(m.b, 3), pc := 30), p, fuel - 1);
  }

  lemma RunToEnd(m: Machine, p: seq<bool>, fuel: nat)
    requires IsCodeProgram(p) && m.pc == 36 && fuel >= 2
    ensures var a := m.a / 8;
      RunFor(m, p, fuel) ==
        if a != 0 then RunFor(m.(a := a, pc := 0), p, fuel - 2) else Halted(m.(a := a, pc := 48))
  {
    RunAdv(m, p, fuel);
    RunJnz(m.(a := m.a / 8, pc := 42), p, fuel - 1);
  }

  lemma RunFirstHalf(m: Machine, p: seq<bool>, fuel: nat)
    requires IsCodeProgram(p) && m.pc == 0 && fuel >= 4
    ensures var b := Xor(m.a % 8, 2);
      var c := Shr(m.a, b) % 8;
      RunFor(m, p, fuel) == RunFor(m.(b := Xor(b, c), c := c, pc := 24), p, fuel - 4)
  {
    RunTo12(m, p, fuel);
    XorBelow8(m.a % 8, 2);
    RunTo24(m.(b := Xor(m.a % 8, 2), pc := 12), p, fuel - 2);
  }

  lemma RunSecondHalf(m: Machine, p: seq<bool>, fuel: nat)
    requires IsCodeProgram(p) && m.pc == 24 && fuel >= 4
    ensures var b := Xor(m.b, 3);
      var a := m.a / 8;
      var after := m.(a := a, b := b, output := m.output + [b % 8]);
      RunFor(m, p, fuel) ==
        if a != 0 then RunFor(after.(pc := 0), p, fuel - 4) else Halted(after.(pc := 48))
  {
    var b := Xor(m.b, 3);
    RunTo36(m, p, fuel);
    RunToEnd(m.(b := b, output := m.output + [b % 8], pc := 36), p, fuel - 2);
  }

  /** Running the program from pc 0 performs one pass through the loop body
      and then halts (A became 0) or is back at pc 0. */
  lemma OnePass(m: Machine, p: seq<bool>, fuel: nat)
    requires IsCodeProgram(p) && m.pc == 0 && fuel >= 8
    ensures RunFor(m, p, fuel) ==
      if AfterPass(m).pc == 48 then Halted(AfterPass(m)) else RunFor(AfterPass(m), p, fuel - 8)
  {
    var b := Xor(m.a % 8, 2);
    var c := Shr(m.a, b) % 8;
    RunFirstHalf(m, p, fuel);
    RunSecondHalf(m.(b := Xor(b, c), c := c, pc := 24), p, fuel - 4);
  }

  lemma AppendAssoc<T>(x: seq<T>, y: seq<T>, z: seq<T>)
    ensures (x + y) + z == x + (y + z)
  {
  }

  /** One pass in terms of the pseudo computer: the digit for A is printed,
      A is divided by 8, and the run halts or goes on from pc 0. */
  lemma PassPrints(m: Machine, p: seq<bool>, fuel: nat) returns (next: Machine)
    requires IsCodeProgram(p) && m.pc == 0 && fuel >= 8
    ensures next.a == m.a / 8 && next.output == m.output + [PseudoDigit(m.a)]
    ensures next.a == 0 ==> RunFor(m, p, fuel) == Halted(next)
    ensures next.a != 0 ==> next.pc == 0 && RunFor(m, p, fuel) == RunFor(next, p, fuel - 8)
  {
    OnePass(m, p, fuel);
    PassPrintsPseudoDigit(m);
    next := AfterPass(m);
  }

  /** On the program, the computer started at pc 0 with A > 0 halts, in the
      returned state, having printed exactly what the pseudo computer prints for A. */
  lemma {:induction false} RunMatchesPseudo(m: Machine, p: seq<bool>, fuel: nat) returns (final: Machine)
    requires IsCodeProgram(p) && m.pc == 0 && m.a > 0 && fuel >= 8 * |PseudoOutput(m.a)|
    ensures RunFor(m, p, fuel) == Halted(final)
    ensures final.output == m.output + PseudoOutput(m.a)
    decreases m.a
  {
    var digit, rest := PseudoDigit(m.a), PseudoOutput(m.a / 8);
    assert PseudoOutput(m.a) == [digit] + rest;
    var next := PassPrints(m, p, fuel);
    if next.a != 0 {
      final := RunMatchesPseudo(next, p, fuel - 8);
      assert RunFor(m, p, fuel) == RunFor(next, p, fuel - 8);
      assert final.output == (m.output + [digit]) + rest;
    } else {
      final := next;
      assert RunFor(m, p, fuel) == Halted(next);
      assert rest == [];
    }
    AppendAssoc(m.output, [digit], rest);
  }

  /** The hard-coded program behaves like the pseudo computer for every A > 0. */
  lemma ComputerMatchesPseudo(a: nat, fuel: nat)
    requires a > 0 && fuel >= 8 * |PseudoOutput(a)|
    ensures RunFor(Machine(a, 0, 0, 0, []), Program(), fuel).Halted?
    ensures RunFor(Machine(a, 0, 0, 0, []), Program(), fuel).m.output == PseudoOutput(a)
  {
    ProgramDecodes();
    var final := RunMatchesPseudo(Machine(a, 0, 0, 0, []), Program(), fuel);
  }

  /** The pass from A = 0: B ends as ((0 xor 2) xor 0) xor 3 = 1. */
  lemma ZeroPass()
    ensures AfterPass(Machine(0, 0, 0, 0, [])) == Machine(0, 1, 0, 48, [1])
  {
    assert Xor(0, 2) == 2 by {
      assert Xor(0, 1) == 1 by { assert Xor(0, 0) == 0; }
    }
    assert Xor(2, 0) == 2;
    assert Xor(2, 3) == 1 by {
      assert Xor(1, 1) == 0 by { assert Xor(0, 0) == 0; }
    }
  }

  /** With A = 0 the computer still runs the loop body once and prints 1,
      whereas the pseudo computer prints nothing. */
  lemma ZeroStartDiffers(fuel: nat)
    requires fuel >= 8
    ensures RunFor(Machine(0, 0, 0, 0, []), Program(), fuel) == Halted(Machine(0, 1, 0, 48, [1]))
    ensures PseudoOutput(0) == []
  {
    ProgramDecodes();
    ZeroPass();
    OnePass(Machine(0, 0, 0, 0, []), Program(), fuel);
  }
}
