/** The register file and its rename table as objects (src/register.rs). */
module Registers {
  import opened Words
  import opened Isa
  import opened OutOfOrder

  /** A write-protectable register. */
  datatype Register = Register(value: u32, writable: bool) {
    function Write(v: u32): Register {
      if writable then this.(value := v) else this
    }
  }

  class RegisterFile {
    var pc: u32
    const gpr: array<Register>
    const relatedRob: array<Option<Tag>>

    /** Only x0 is read-only. */
    ghost predicate Valid()
      reads gpr
    {
      && gpr.Length == 32 && relatedRob.Length == 32
      && forall r :: 0 <= r < 32 ==> (gpr[r].writable <==> r != 0)
    }

    ghost function Values(): Regs
      requires gpr.Length == 32
      reads gpr
    {
      seq(32, r requires 0 <= r < 32 reads gpr => gpr[r].value)
    }

    ghost function Table(): Renames
      requires relatedRob.Length == 32
      reads relatedRob
    {
      relatedRob[..]
    }

    constructor (pc: u32, stackPointer: u32)
      ensures Valid() && fresh(gpr) && fresh(relatedRob)
      ensures this.pc == pc && Table() == seq(32, _ => None)
      ensures Values() == seq(32, i => if i == 2 then stackPointer else 0)
    {
      this.pc := pc;
      gpr := new Register[32](_ => Register(0, true));
      relatedRob := new Option<Tag>[32](_ => None);
      new;
      gpr[0] := Register(0, false);
      gpr[2] := Register(stackPointer, true);
    }

    method ReadAll() returns (regs: Regs)
      requires Valid()
      ensures regs == Values()
    {
      regs := seq(32, r requires 0 <= r < 32 reads gpr => gpr[r].value);
    }

    method WriteReg(r: Reg, v: u32)
      requires Valid()
      modifies gpr
      ensures Valid() && Values() == SetReg(old(Values()), r, v)
    {
      gpr[r] := gpr[r].Write(v);
    }

    method SetRegRobIndex(r: Reg, t: Tag)
      requires Valid()
      modifies relatedRob
      ensures Valid() && Table() == if r == 0 then old(Table()) else old(Table())[r := Some(t)]
    {
      if r == 0 { return; }
      relatedRob[r] := Some(t);
    }

    /** Forget the rename of `r` if it names the entry that retires. */
    method Release(r: Reg, t: Tag)
      requires Valid()
      modifies relatedRob
      ensures Valid()
      ensures Table() == if old(Table())[r] == Some(t) then old(Table())[r := None] else old(Table())
    {
      if relatedRob[r] == Some(t) {
        relatedRob[r] := None;
      }
    }

    method ClearRenames()
      requires Valid()
      modifies relatedRob
      ensures Valid() && Table() == seq(32, _ => None)
    {
      for r := 0 to 32
        invariant Valid()
        invariant forall k :: 0 <= k < r ==> relatedRob[k] == None
      {
        relatedRob[r] := None;
      }
    }

    /** The registers are those of `s`, and every tag in the rename table means the same entry in
        `rob` as in the buffer of `s`. */
    ghost predicate Reflects(s: Machine, rob: seq<RobEntry>)
      reads this, gpr, relatedRob
    {
      && Valid() && s.gpr == Values() && s.renames == Table()
      && SameLookups(s, rob)
    }

    /** `get_reg_value`. */
    method GetRegValue(r: Reg, rob: seq<RobEntry>, ghost s: Machine) returns (op: Operand)
      requires Reflects(s, rob)
      ensures op == RegValue(s, r)
    {
      match relatedRob[r]
      case None => op := Value(gpr[r].value);
      case Some(t) =>
        var e := Lookup(rob, t);
        if e.Some? && e.value.regValue.Some? {
          op := Value(e.value.regValue.value);
        } else {
          op := Rob(t);
        }
    }
  }

  ghost predicate SameLookups(s: Machine, rob: seq<RobEntry>) {
    forall r: Reg :: s.renames[r].Some? ==> Lookup(rob, s.renames[r].value) == Lookup(s.rob, s.renames[r].value)
  }
}
