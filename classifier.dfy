/** The per-line classifier `combinational_assignment`: from a line's tag and its resolved
    argument texts it builds the expression of a combinational wire, says that the line is
    not combinational, or throws. */
module Classifier {
  import opened Wrappers
  import opened Text
  import opened Btor2
  import opened Operators

  datatype Emission = Assign(expr: string) | NotCombinational | Throws

  /** Integer magnitude: the line id an argument refers to, negated or not. */
  function Abs(i: int): (r: nat)
    ensures r == i || r == -i
  {
    if i < 0 then -i else i
  }

  /** The sort of the line the first argument refers to, looked up by its raw (possibly
      negative) argument id, as the source does. */
  function OperandSortAsWritten(l: Line, sorts: map<int, Sort>): Option<Sort>
  {
    Lookup(sorts, Slot(l, 0))
  }

  /** The sort of the line the first argument refers to, whether or not it is negated:
      the complement of a value has the value's sort. */
  function OperandSort(l: Line, sorts: map<int, Sort>): (r: Option<Sort>)
    ensures r == Lookup(sorts, Abs(Slot(l, 0)))
    ensures Slot(l, 0) >= 0 ==> r == OperandSortAsWritten(l, sorts)
  {
    Lookup(sorts, Abs(Slot(l, 0)))
  }

  /** `n'b00..0`: an n-bit zero literal. */
  function ZeroLiteral(n: nat): string
  {
    IntToString(n) + "'b" + Repeat('0', n)
  }

  /** `w'd1`: the value one at width w, the same text a `one` line assigns. */
  function OneLiteral(w: nat): string
  {
    IntToString(w) + "'d1"
  }

  /** `$signed(a)`: a reinterpreted as a signed value. */
  function SignedCast(a: string): string
  {
    "$signed(" + a + ")"
  }

  /** The tags the classifier turns into an expression (or rejects): everything else is
      left to the driver. */
  predicate Handled(tag: Tag)
  {
    || tag == Slice || tag == Sext || tag == Uext || tag == Rol || tag == Ror || tag == Inc
    || tag == Dec || tag == Eq || tag == Implies || tag == Concat || tag == Ite || tag == Read
    || InTables(tag)
  }

  /** The cases in which the classifier throws: rotations, an extension or equality whose
      operand has no sort, a negative extension count, array equality and wrong arity. */
  predicate Rejects(l: Line, args: seq<string>, sorts: map<int, Sort>)
  {
    || l.tag == Rol || l.tag == Ror
    || (l.tag == Sext && OperandSort(l, sorts).None?)
    || (l.tag == Uext && Slot(l, 1) < 0)
    || (l.tag == Eq && (OperandSort(l, sorts).None? || OperandSort(l, sorts).value.k == ArrayKind))
    || (BvOp(l.tag).Some? && |args| != 1 && |args| != 2)
    || (InTables(l.tag) && !BvOp(l.tag).Some? && |args| != 2)
  }

  /** The tags of the three operator tables. */
  predicate InTables(tag: Tag)
  {
    BvOp(tag).Some? || SignedBvOp(tag).Some? || NegBvOp(tag).Some?
  }

  /** The operator-table branch of `combinational_assignment`: the plain table first, then
      the signed one, then the negated one, each checking the argument count. */
  function TableExpression(tag: Tag, args: seq<string>): (r: Emission)
    requires InTables(tag)
    ensures !r.NotCombinational?
    ensures r.Throws? <==>
      (BvOp(tag).Some? && |args| != 1 && |args| != 2) || (!BvOp(tag).Some? && |args| != 2)
  {
    if BvOp(tag).Some? then
      if |args| == 1 then Assign(BvOp(tag).value + args[0])
      else if |args| == 2 then Assign(args[0] + " " + BvOp(tag).value + " " + args[1])
      else Throws
    else if SignedBvOp(tag).Some? then
      if |args| != 2 then Throws
      else Assign("(" + SignedCast(args[0]) + " " + SignedBvOp(tag).value + " " + SignedCast(args[1]) + ")")
    else
      if |args| != 2 then Throws
      else Assign("~(" + args[0] + NegBvOp(tag).value + args[1] + ")")
  }

  /** `combinational_assignment`, one branch per tag in the source's order. */
  function Classify(l: Line, args: seq<string>, sorts: map<int, Sort>, lineSort: Sort): (r: Emission)
    requires |args| >= Needed(l.tag)
    ensures r.NotCombinational? <==> !Handled(l.tag)
    ensures r.Throws? <==> Rejects(l, args, sorts)
  {
    if l.tag == Slice then
      Assign(args[0] + "[" + IntToString(Slot(l, 1)) + ":" + IntToString(Slot(l, 2)) + "]")
    else if l.tag == Sext then
      match OperandSort(l, sorts)
      case None => Throws
      case Some(s) =>
        var msbIdx := IntToString(s.w1 - 1);
        var msb := args[0] + "[" + msbIdx + ":" + msbIdx + "]";
        Assign("{{" + IntToString(Slot(l, 1)) + "{" + msb + "}}, " + args[0] + "}")
    else if l.tag == Uext then
      var n := Slot(l, 1);
      if n == 0 then Assign(args[0])
      else if n < 0 then Throws
      else Assign("{" + ZeroLiteral(n) + ", " + args[0] + "}")
    else if l.tag == Rol then Throws
    else if l.tag == Ror then Throws
    else if l.tag == Inc then Assign(args[0] + " + " + OneLiteral(lineSort.w1))
    else if l.tag == Dec then Assign(args[0] + " - " + OneLiteral(lineSort.w1))
    else if l.tag == Eq then
      match OperandSort(l, sorts)
      case None => Throws
      case Some(s) => if s.k == ArrayKind then Throws else Assign(args[0] + " == " + args[1])
    else if l.tag == Implies then Assign("~" + args[0] + " || " + args[1])
    else if l.tag == Concat then Assign("{" + args[0] + ", " + args[1] + "}")
    else if InTables(l.tag) then TableExpression(l.tag, args)
    else if l.tag == Ite then Assign(args[0] + " ? " + args[1] + " : " + args[2])
    else if l.tag == Read then Assign(args[0] + "[" + args[1] + "]")
    else NotCombinational
  }

  /** Every operator-table tag reaches the table branch: no special case shadows it. */
  lemma TableBranch(l: Line, args: seq<string>, sorts: map<int, Sort>, lineSort: Sort)
    requires InTables(l.tag) && |args| >= Needed(l.tag)
    ensures Classify(l, args, sorts, lineSort) == TableExpression(l.tag, args)
  {
  }

  /** A unary plain operator is prefixed, a binary one is infix between spaces. */
  lemma PlainOperator(l: Line, args: seq<string>, sorts: map<int, Sort>, lineSort: Sort)
    requires BvOp(l.tag).Some?
    ensures |args| == 1 ==> Classify(l, args, sorts, lineSort) == Assign(BvOp(l.tag).value + args[0])
    ensures |args| == 2 ==>
      Classify(l, args, sorts, lineSort) == Assign(args[0] + " " + BvOp(l.tag).value + " " + args[1])
    ensures |args| != 1 && |args| != 2 ==> Classify(l, args, sorts, lineSort) == Throws
  {
    TableBranch(l, args, sorts, lineSort);
  }

  /** A signed operation is the unsigned operation over `$signed` operands, in parentheses. */
  lemma SignedIsUnsignedOverCasts(l: Line, a: string, b: string, sorts: map<int, Sort>, lineSort: Sort)
    requires SignedBvOp(l.tag).Some?
    ensures
      var u := Classify(l.(tag := UnsignedOf(l.tag)), [SignedCast(a), SignedCast(b)], sorts, lineSort);
      u.Assign? && Classify(l, [a, b], sorts, lineSort) == Assign("(" + u.expr + ")")
  {
    var plain := l.(tag := UnsignedOf(l.tag));
    TablesDisjoint(l.tag);
    TableBranch(l, [a, b], sorts, lineSort);
    TableBranch(plain, [SignedCast(a), SignedCast(b)], sorts, lineSort);
    SignedSharesUnsignedText(l.tag);
  }

  /** nand, nor and xnor: the complement of the positive operator applied without spaces. */
  lemma DeMorgan(l: Line, a: string, b: string, sorts: map<int, Sort>, lineSort: Sort)
    requires NegBvOp(l.tag).Some?
    ensures Classify(l, [a, b], sorts, lineSort) == Assign("~(" + a + BvOp(PositiveOf(l.tag)).value + b + ")")
  {
    TablesDisjoint(l.tag);
    TableBranch(l, [a, b], sorts, lineSort);
    NegatedStoresPositiveText(l.tag);
  }

  /** An infix operator between spaces, regrouped as one middle piece. */
  lemma InfixRegroup(a: string, op: string, b: string)
    ensures a + " " + op + " " + b == a + (" " + op + " ") + b
  {
  }

  /** inc is add of the one literal at the line's own width. */
  lemma IncIsAddOne(l: Line, a: string, sorts: map<int, Sort>, lineSort: Sort)
    requires l.tag == Inc
    ensures Classify(l, [a], sorts, lineSort) == Classify(l.(tag := Add), [a, OneLiteral(lineSort.w1)], sorts, lineSort)
  {
    var one := OneLiteral(lineSort.w1);
    assert Classify(l, [a], sorts, lineSort) == Assign(a + " + " + one);
    TableBranch(l.(tag := Add), [a, one], sorts, lineSort);
    InfixRegroup(a, "+", one);
    assert " " + "+" + " " == " + ";
  }

  /** dec is sub of the one literal at the line's own width. */
  lemma DecIsSubOne(l: Line, a: string, sorts: map<int, Sort>, lineSort: Sort)
    requires l.tag == Dec
    ensures Classify(l, [a], sorts, lineSort) == Classify(l.(tag := Sub), [a, OneLiteral(lineSort.w1)], sorts, lineSort)
  {
    var one := OneLiteral(lineSort.w1);
    assert Classify(l, [a], sorts, lineSort) == Assign(a + " - " + one);
    TableBranch(l.(tag := Sub), [a, one], sorts, lineSort);
    InfixRegroup(a, "-", one);
    assert " " + "-" + " " == " - ";
  }

  /** Zero extension by 0 bits leaves the operand text unchanged; by n > 0 bits it
      concatenates an n-bit zero literal of exactly n zero digits in front. */
  lemma ZeroExtension(l: Line, args: seq<string>, sorts: map<int, Sort>, lineSort: Sort)
    requires l.tag == Uext && |args| >= 1
    ensures Slot(l, 1) == 0 ==> Classify(l, args, sorts, lineSort) == Assign(args[0])
    ensures Slot(l, 1) > 0 ==>
      var n := Slot(l, 1);
      var zeros := NatToString(n) + "'b" + Repeat('0', n);
      Classify(l, args, sorts, lineSort) == Assign("{" + zeros + ", " + args[0] + "}")
  {
  }

  /** Sign extension by n bits concatenates n copies of the operand's most significant
      bit, whose index comes from the operand's own width, in front of the operand. */
  lemma SignExtension(l: Line, args: seq<string>, sorts: map<int, Sort>, lineSort: Sort)
    requires l.tag == Sext && |args| >= 1 && OperandSort(l, sorts).Some?
    requires OperandSort(l, sorts).value.w1 >= 1 && Slot(l, 1) >= 0
    ensures
      var idx := NatToString(OperandSort(l, sorts).value.w1 - 1);
      var msb := args[0] + "[" + idx + ":" + idx + "]";
      Classify(l, args, sorts, lineSort) == Assign("{{" + NatToString(Slot(l, 1)) + "{" + msb + "}}, " + args[0] + "}")
  {
  }

  /** A slice selects `[hi:lo]` of its operand, printing the two immediates as given. */
  lemma SliceSelects(l: Line, args: seq<string>, sorts: map<int, Sort>, lineSort: Sort)
    requires l.tag == Slice && |args| >= 1 && Slot(l, 1) >= 0 && Slot(l, 2) >= 0
    ensures Classify(l, args, sorts, lineSort)
      == Assign(args[0] + "[" + NatToString(Slot(l, 1)) + ":" + NatToString(Slot(l, 2)) + "]")
  {
  }

  /** Equality is emitted only for bit-vector operands. */
  lemma EqualityOnBitVectorsOnly(l: Line, args: seq<string>, sorts: map<int, Sort>, lineSort: Sort)
    requires l.tag == Eq && |args| >= 2
    ensures Classify(l, args, sorts, lineSort).Assign?
        <==> OperandSort(l, sorts).Some? && OperandSort(l, sorts).value.k == BitVecKind
    ensures Classify(l, args, sorts, lineSort).Assign? ==>
        Classify(l, args, sorts, lineSort).expr == args[0] + " == " + args[1]
  {
  }

  /** Negating an operand does not change the sort the classifier sees for it. */
  lemma OperandSortIgnoresNegation(l: Line, sorts: map<int, Sort>)
    requires |l.args| >= 1
    ensures OperandSort(l.(args := l.args[0 := -l.args[0]]), sorts) == OperandSort(l, sorts)
  {
  }

  /** As written, sign-extending the complement of line 2 looks up the sort of id -2, which
      no line declares, so the source throws where the operand's 4-bit sort is known and
      the extension is emitted. */
  lemma NegatedOperandLosesSort()
    ensures
      var l := Line(4, Sext, 3, BitVecDecl(0), [-2, 4, 0], 1, "");
      var sorts := map[1 := BitVec(4), 2 := BitVec(4), 3 := BitVec(8)];
      && OperandSortAsWritten(l, sorts) == None
      && OperandSort(l, sorts) == Some(BitVec(4))
      && Classify(l, ["~i0"], sorts, BitVec(8)).Assign?
  {
    var l := Line(4, Sext, 3, BitVecDecl(0), [-2, 4, 0], 1, "");
    var sorts := map[1 := BitVec(4), 2 := BitVec(4), 3 := BitVec(8)];
    assert Slot(l, 0) == -2;
    assert OperandSort(l, sorts) == Some(BitVec(4));
  }
}
