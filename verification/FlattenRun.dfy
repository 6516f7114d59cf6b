/** The loops behind module Flatten: tokens appended to the context's list
    (`convert_*`, `envydis/core-as.c`), and tokens read from a position that only moves
    forward (`dis_parse_*`, `envydis/core-dis.c`). */
module FlattenRun {
  import opened Options
  import opened Exprs
  import opened Tables
  import opened Flatten

  lemma {:induction false} SubInsnsSplit(a: seq<SubInsn>, s: SubInsn)
    ensures FlatSubInsns(a + [s]) == FlatSubInsns(a) + FlatSubInsn(s)
  {
    hide FlatSubInsn;
    if a == [] {
      assert a + [s] == [s] && [s][1..] == [];
      assert FlatSubInsns([s]) == FlatSubInsn(s) + FlatSubInsns([]);
    } else {
      assert (a + [s])[1..] == a[1..] + [s];
      SubInsnsSplit(a[1..], s);
    }
  }

  /** The token list of `struct iasctx`. */
  class TokenList {
    var atoms: seq<Item>

    constructor ()
      ensures atoms == []
    {
      atoms := [];
    }

    method ConvertMods(mods: seq<Modifier>)
      modifies this
      ensures atoms == old(atoms) + FlatMods(mods)
    {
      for i := 0 to |mods|
        invariant atoms == old(atoms) + FlatMods(mods[..i])
      {
        atoms := atoms + [NameItem(mods[i].name, false)];
        ModsSplit(mods[..i], mods[i]);
        assert mods[..i + 1] == mods[..i] + [mods[i]];
      }
      assert mods[..|mods|] == mods;
    }

    method ConvertExprTop(e: Expr)
      modifies this
      ensures atoms == old(atoms) + FlatExpr(e)
      decreases e, 0
    {
      hide FlatSInsn;
      if e.SInsnExpr? {
        atoms := atoms + [SeStart];
        ConvertSInsn(e.insn);
        atoms := atoms + [SeEnd];
      } else {
        atoms := atoms + [ExprItem(e)];
      }
    }

    method ConvertExprs(es: seq<Expr>)
      modifies this
      ensures atoms == old(atoms) + FlatExprs(es)
      decreases es, 0
    {
      hide FlatExpr;
      for i := 0 to |es|
        invariant atoms == old(atoms) + FlatExprs(es[..i])
      {
        ConvertExprTop(es[i]);
        ExprsSplit(es[..i], es[i]);
        assert es[..i + 1] == es[..i] + [es[i]];
      }
      assert es[..|es|] == es;
    }

    method ConvertOperand(op: Operand)
      modifies this
      ensures atoms == old(atoms) + FlatMods(op.mods) + FlatExprs(op.exprs)
      decreases op, 0
    {
      hide FlatMods, FlatExprs;
      ConvertMods(op.mods);
      ConvertExprs(op.exprs);
    }

    method ConvertSInsn(s: SInsn)
      modifies this
      ensures atoms == old(atoms) + FlatSInsn(s)
      decreases s, 0
    {
      hide FlatMods, FlatExprs, FlatOperands;
      atoms := atoms + [NameItem(s.name, false)];
      ghost var start := atoms;
      NoOperands();
      for i := 0 to |s.operands|
        invariant atoms == start + FlatOperands(s.operands[..i])
      {
        ConvertOperand(s.operands[i]);
        OperandsSplit(s.operands[..i], s.operands[i]);
        assert s.operands[..i + 1] == s.operands[..i] + [s.operands[i]];
      }
      assert s.operands[..|s.operands|] == s.operands;
      ConvertMods(s.mods);
    }

    method ConvertSubInsn(s: SubInsn)
      modifies this
      ensures atoms == old(atoms) + FlatSubInsn(s)
    {
      hide FlatExprs, FlatSInsn;
      ConvertExprs(s.prefs);
      ConvertSInsn(s.sinsn);
    }

    /** `convert_insn` */
    method ConvertInsn(insn: Insn)
      modifies this
      ensures atoms == old(atoms) + FlatInsn(insn)
    {
      hide FlatSubInsn;
      for i := 0 to |insn.subinsns|
        invariant atoms == old(atoms) + FlatSubInsns(insn.subinsns[..i])
      {
        ConvertSubInsn(insn.subinsns[i]);
        SubInsnsSplit(insn.subinsns[..i], insn.subinsns[i]);
        assert insn.subinsns[..i + 1] == insn.subinsns[..i] + [insn.subinsns[i]];
      }
      assert insn.subinsns[..|insn.subinsns|] == insn.subinsns;
    }
  }

  lemma NoOperands()
    ensures FlatOperands([]) == []
  {
  }

  /** The token list and the position `*spos` of the parser.  A method that returns
      nothing has come to an `abort()`. */
  class TokenReader {
    const atoms: seq<Item>
    var spos: nat

    ghost predicate Valid()
      reads this
    {
      spos <= |atoms|
    }

    ghost function Left(): seq<Item>
      reads this
      requires Valid()
    {
      atoms[spos..]
    }

    constructor (atoms: seq<Item>)
      ensures Valid() && this.atoms == atoms && Left() == atoms
    {
      this.atoms, spos := atoms, 0;
    }

    /** The result of a method agrees with the parser on the tokens that were left. */
    ghost predicate Matches<T>(r: Parsed<T>, got: Option<T>)
      reads this
    {
      Valid() && if r.Got? then got == Some(r.value) && Left() == r.rest else got == None
    }

    method ParseExprAt() returns (e: Option<Expr>)
      requires Valid()
      modifies this
      ensures Matches(ParseExpr(old(Left())), e)
      decreases |atoms| - spos, 1
    {
      hide ParseSInsn;
      if spos >= |atoms| {
        return None;
      }
      var item := atoms[spos];
      spos := spos + 1;
      assert Left() == old(Left())[1..];
      if item.ExprItem? {
        return Some(item.e);
      }
      if !item.SeStart? {
        return None;
      }
      var s := ParseSInsnAt();
      if s.None? || spos >= |atoms| || !atoms[spos].SeEnd? {
        return None;
      }
      ghost var rest := Left();
      spos := spos + 1;
      assert Left() == rest[1..];
      e := Some(SInsnExpr(s.value));
    }

    method ParseSInsnAt() returns (r: Option<SInsn>)
      requires Valid()
      modifies this
      ensures Matches(ParseSInsn(old(Left())), r)
      decreases |atoms| - spos, 0
    {
      hide ParseExpr;
      if spos >= |atoms| || !atoms[spos].NameItem? {
        return None;
      }
      var s := SInsn(atoms[spos].name, atoms[spos].isunk, [], []);
      spos := spos + 1;
      assert Left() == old(Left())[1..];
      while spos < |atoms| && !atoms[spos].SeEnd?
        invariant Valid() && old(spos) < spos
        invariant ParseSInsn(old(Left())) == ParseBody(Left(), s)
        decreases |atoms| - spos
      {
        ghost var left := Left();
        if atoms[spos].NameItem? {
          s := s.(mods := s.mods + [Modifier(atoms[spos].name, atoms[spos].isunk)]);
          spos := spos + 1;
          assert Left() == left[1..];
        } else {
          var e := ParseExprAt();
          if e.None? {
            return None;
          }
          s := s.(operands := s.operands + [Operand(s.mods, [e.value])], mods := []);
        }
      }
      r := Some(s);
    }

    method ParseSubInsnAt() returns (r: Option<SubInsn>)
      requires Valid()
      modifies this
      ensures Matches(ParsePrefixes(old(Left()), []), r)
    {
      hide ParseExpr, ParseSInsn;
      var prefs := [];
      while spos >= |atoms| || !atoms[spos].NameItem?
        invariant Valid()
        invariant ParsePrefixes(old(Left()), []) == ParsePrefixes(Left(), prefs)
        decreases |atoms| - spos
      {
        var e := ParseExprAt();
        if e.None? {
          return None;
        }
        prefs := prefs + [e.value];
      }
      var s := ParseSInsnAt();
      r := if s.Some? then Some(SubInsn(prefs, s.value)) else None;
    }

    /** `dis_parse_insn` */
    method ParseInsnAt() returns (r: Option<Insn>)
      requires Valid() && spos == 0
      modifies this
      ensures r == ParseInsn(atoms)
    {
      hide ParsePrefixes;
      assert Left() == atoms;
      var s := ParseSubInsnAt();
      r := if s.Some? && spos == |atoms| then Some(Insn([s.value])) else None;
    }
  }
}
