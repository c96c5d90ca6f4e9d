/** The single pass of `parse`: for each line record, resolve its sort, gather its
    argument texts, classify it and record the result in the translation tables. */
module Driver {
  import opened Wrappers
  import opened Text
  import opened Btor2
  import opened Operators
  import opened Classifier

  /** Why a pass stops. The source either returns false or lets an exception escape; both
      end the run without output. */
  datatype Failure =
    | MissingSort(id: int)            // sorts_.at finds no sort for this id
    | MissingSymbol(id: int)          // symbols_.at finds no name for this id
    | Untranslatable(id: int)         // combinational_assignment threw on this line
    | MultiDimensionalArray(id: int)  // an array sort over an array sort
    | WriteAssertion(id: int)         // an assert on a write line fails
    | UnhandledTag(id: int)           // a tag no branch handles

  datatype Outcome = Pass | Fail(error: Failure)

  /** An array write: source array, index and element texts, index and element widths. */
  datatype WriteDesc = WriteDesc(arr: string, idx: string, elm: string, idxWidth: nat, elemWidth: nat)

  /** The translation tables of one run. `lineSort` is the sort last resolved, which lines
      without a sort of their own go on seeing. */
  datatype Tables = Tables(
    sorts: map<int, Sort>,
    symbols: map<int, string>,
    inputs: set<int>,
    outputs: set<int>,
    states: seq<int>,
    wires: seq<int>,
    wireAssigns: map<string, string>,
    init: map<string, string>,
    updates: map<string, string>,
    constraints: seq<string>,
    props: seq<string>,
    writes: map<string, WriteDesc>,
    lineSort: Sort)

  function Empty(): Tables
  {
    Tables(map[], map[], {}, {}, [], [], map[], map[], map[], [], [], map[], BitVec(0))
  }

  /** The text of one argument: the referenced line's name, complemented when the id is
      negative. */
  function Resolve(symbols: map<int, string>, ref: int): (r: Result<string, Failure>)
    ensures r.Failure? <==> Abs(ref) !in symbols
    ensures r.Success? && ref >= 0 ==> r.value == symbols[ref]
    ensures r.Success? && ref < 0 ==> r.value == "~" + symbols[-ref]
  {
    if ref < 0 then
      if -ref in symbols then Success("~" + symbols[-ref]) else Failure(MissingSymbol(-ref))
    else
      if ref in symbols then Success(symbols[ref]) else Failure(MissingSymbol(ref))
  }

  /** The texts of the first n arguments of a line, or the failure of the first one that
      names an unbound id. */
  function Gather(symbols: map<int, string>, l: Line, n: nat): (r: Result<seq<string>, Failure>)
    ensures r.Success? ==> |r.value| == n
    ensures r.Success? ==> forall i :: 0 <= i < n ==> Resolve(symbols, Slot(l, i)) == Success(r.value[i])
    ensures r.Failure? <==> exists i :: 0 <= i < n && Resolve(symbols, Slot(l, i)).Failure?
  {
    if n == 0 then Success([])
    else
      match Gather(symbols, l, n - 1)
      case Failure(e) => Failure(e)
      case Success(prefix) =>
        match Resolve(symbols, Slot(l, n - 1))
        case Failure(e) => Failure(e)
        case Success(a) => Success(prefix + [a])
  }

  /** Once an argument fails to resolve, gathering more arguments fails the same way. */
  lemma {:induction false} GatherKeepsFailure(symbols: map<int, string>, l: Line, k: nat, n: nat)
    requires k <= n && Gather(symbols, l, k).Failure?
    ensures Gather(symbols, l, n) == Gather(symbols, l, k)
    decreases n
  {
    if k < n {
      GatherKeepsFailure(symbols, l, k, n - 1);
    }
  }

  /** Binds a combinational wire: name `w<id>`, assigned the given expression. */
  function BindWire(t: Tables, id: int, expr: string): Tables
  {
    var name := "w" + IntToString(id);
    t.(wires := t.wires + [id], symbols := t.symbols[id := name], wireAssigns := t.wireAssigns[name := expr])
  }

  /** The tags of constant lines. */
  predicate IsConstantTag(tag: Tag)
  {
    tag == Const || tag == Constd || tag == Consth || tag == Zero || tag == One || tag == Ones
  }

  /** Constant lines are not combinational: the classifier leaves them to the driver. */
  lemma ConstantTagNotHandled(tag: Tag)
    requires IsConstantTag(tag)
    ensures !Handled(tag)
  {
  }

  /** The literal a constant line assigns, sized by the current line sort's width. */
  function ConstantText(tag: Tag, lineSort: Sort, constant: string): (r: Option<string>)
    ensures r.Some? <==> IsConstantTag(tag)
  {
    var w := IntToString(lineSort.w1);
    match tag
    case Const => Some(w + "'b" + constant)
    case Constd => Some(w + "'d" + constant)
    case Consth => Some(w + "'h" + constant)
    case Zero => Some(w + "'d0")
    case One => Some(w + "'d1")
    case Ones => Some(w + "'b" + Repeat('1', lineSort.w1))
    case _ => None
  }

  /** The radix letter of a constant's literal: binary for `const` and `ones`, hexadecimal
      for `consth`, decimal otherwise. */
  function RadixLetter(tag: Tag): char
  {
    if tag == Const || tag == Ones then 'b' else if tag == Consth then 'h' else 'd'
  }

  /** The digits a constant's literal carries after its radix. */
  function LiteralDigits(tag: Tag, lineSort: Sort, constant: string): string
  {
    if tag == Zero then "0"
    else if tag == One then "1"
    else if tag == Ones then Repeat('1', lineSort.w1)
    else constant
  }

  /** A constant literal is the line sort's width in decimal, which reads back as that
      width, a quote, the radix letter and the digits: the reader's text for `const`,
      `constd` and `consth`, a single 0 or 1 for `zero` and `one`, and one 1 per bit for
      `ones`. */
  lemma ConstantLiteral(tag: Tag, lineSort: Sort, constant: string)
    requires IsConstantTag(tag)
    ensures
      var r := ConstantText(tag, lineSort, constant).value;
      var w := NatToString(lineSort.w1);
      && r == w + ['\'', RadixLetter(tag)] + LiteralDigits(tag, lineSort, constant)
      && r[..|w|] == w && ParseNat(r[..|w|]) == lineSort.w1
      && r[|w|] == '\'' && r[|w| + 1] == RadixLetter(tag)
      && r[|w| + 2..] == LiteralDigits(tag, lineSort, constant)
  {
    var w := NatToString(lineSort.w1);
    var d := LiteralDigits(tag, lineSort, constant);
    var r := ConstantText(tag, lineSort, constant).value;
    assert r == w + ['\'', RadixLetter(tag)] + d;
    assert r[..|w|] == w;
    assert r[|w| + 2..] == d;
    ParseNatToString(lineSort.w1);
  }

  /** `ones` of width w is w one-bits. */
  lemma OnesAreAllOnes(lineSort: Sort, constant: string)
    ensures
      var r := ConstantText(Ones, lineSort, constant).value;
      var n := |NatToString(lineSort.w1)| + 2;
      && |r| == n + lineSort.w1
      && forall i :: n <= i < |r| ==> r[i] == '1'
  {
    ConstantLiteral(Ones, lineSort, constant);
    var r := ConstantText(Ones, lineSort, constant).value;
    var n := |NatToString(lineSort.w1)| + 2;
    forall i | n <= i < |r|
      ensures r[i] == '1'
    {
      assert r[i] == r[n..][i - n];
    }
  }

  /** `zero` and `one` assign what a decimal `constd` of 0 and of 1 would. */
  lemma ZeroAndOneAreDecimal(lineSort: Sort, constant: string)
    ensures ConstantText(Zero, lineSort, constant) == ConstantText(Constd, lineSort, "0")
    ensures ConstantText(One, lineSort, constant) == ConstantText(Constd, lineSort, "1")
  {
    var w := IntToString(lineSort.w1);
    assert w + "'d" + "0" == w + "'d0";
    assert w + "'d" + "1" == w + "'d1";
  }

  /** The one literal the classifier adds for `inc` and subtracts for `dec` is the text a
      `one` line of the same width assigns. */
  lemma OneLiteralIsOneLine(w: nat, constant: string)
    ensures ConstantText(One, BitVec(w), constant) == Some(OneLiteral(w))
  {
  }

  /** The reset value recorded for a state: a uniform fill for an array. */
  function InitValue(lineSort: Sort, value: string): string
  {
    if lineSort.k == ArrayKind then "'{default:" + value + "}" else value
  }

  /** The assignment of an output, as written: the name `w<arg>`, whatever the argument is. */
  function OutputAssignAsWritten(l: Line): string
  {
    "w" + IntToString(Slot(l, 0))
  }

  /** The assignment of an output: the resolved text of its argument. */
  function OutputAssign(args: seq<string>): string
    requires |args| >= 1
  {
    args[0]
  }

  function DeclareSort(t: Tables, l: Line): Result<Tables, Failure>
  {
    match l.decl
    case BitVecDecl(w) =>
      Success(t.(lineSort := BitVec(w), sorts := t.sorts[l.id := BitVec(w)]))
    case ArrayDecl(index, element) =>
      if index !in t.sorts then Failure(MissingSort(index))
      else if element !in t.sorts then Failure(MissingSort(element))
      else
        var s1, s2 := t.sorts[index], t.sorts[element];
        if s1.k != BitVecKind || s2.k != BitVecKind then Failure(MultiDimensionalArray(l.id))
        else
          var s := Array(s1.w1, s2.w1);
          Success(t.(lineSort := s, sorts := t.sorts[l.id := s]))
  }

  function DeclareState(t: Tables, id: int): Tables
  {
    t.(states := t.states + [id], symbols := t.symbols[id := "s" + IntToString(id)])
  }

  /** Inputs are numbered in encounter order: `i<number of inputs so far>`. */
  function DeclareInput(t: Tables, id: int): Tables
  {
    t.(inputs := t.inputs + {id}, symbols := t.symbols[id := "i" + NatToString(|t.inputs|)])
  }

  /** Outputs are numbered like inputs, take their driver's sort and are assigned its text. */
  function DeclareOutput(t: Tables, l: Line, args: seq<string>): Result<Tables, Failure>
    requires |args| >= 1
  {
    var name := "o" + NatToString(|t.outputs|);
    var driver := Abs(Slot(l, 0));
    if driver !in t.sorts then Failure(MissingSort(driver))
    else
      Success(t.(outputs := t.outputs + {l.id}, symbols := t.symbols[l.id := name],
                 sorts := t.sorts[l.id := t.sorts[driver]],
                 wireAssigns := t.wireAssigns[name := OutputAssign(args)]))
  }

  /** A write binds the shadow array `write_<id>` and records its descriptor; the source
      asserts three arguments and a fresh shadow name. */
  function DeclareWrite(t: Tables, l: Line, args: seq<string>): Result<Tables, Failure>
  {
    var name := "write_" + IntToString(l.id);
    if |args| != 3 || name in t.writes then Failure(WriteAssertion(l.id))
    else
      Success(t.(symbols := t.symbols[l.id := name],
                 writes := t.writes[name := WriteDesc(args[0], args[1], args[2], t.lineSort.w1, t.lineSort.w2)]))
  }

  /** The lines the classifier leaves to the driver, in the source's order of tests. */
  function Declare(t: Tables, l: Line, args: seq<string>): Result<Tables, Failure>
    requires |args| == l.nargs >= Needed(l.tag)
  {
    var constant := ConstantText(l.tag, t.lineSort, l.constant);
    if constant.Some? then Success(BindWire(t, l.id, constant.value))
    else if l.tag == State then Success(DeclareState(t, l.id))
    else if l.tag == Input then Success(DeclareInput(t, l.id))
    else if l.tag == Output then DeclareOutput(t, l, args)
    else if l.tag == SortTag then DeclareSort(t, l)
    else if l.tag == Constraint then Success(t.(constraints := t.constraints + [args[0]]))
    else if l.tag == Init then Success(t.(init := t.init[args[0] := InitValue(t.lineSort, args[1])]))
    else if l.tag == Next then Success(t.(updates := t.updates[args[0] := args[1]]))
    else if l.tag == Bad then Success(t.(props := t.props + ["~" + args[0]]))
    else if l.tag == Write then DeclareWrite(t, l, args)
    else Failure(UnhandledTag(l.id))
  }

  /** The line's tables after its sort is resolved, or the id whose sort is missing. */
  function ResolveSort(t: Tables, l: Line): Result<Tables, Failure>
  {
    if l.tag == SortTag || l.sortId == 0 then Success(t)
    else if l.sortId !in t.sorts then Failure(MissingSort(l.sortId))
    else Success(t.(lineSort := t.sorts[l.sortId], sorts := t.sorts[l.id := t.sorts[l.sortId]]))
  }

  /** One iteration of the loop of `parse`. */
  function Step(t: Tables, l: Line): Result<Tables, Failure>
    requires WellShaped(l)
  {
    match ResolveSort(t, l)
    case Failure(e) => Failure(e)
    case Success(t1) =>
      match Gather(t1.symbols, l, l.nargs)
      case Failure(e) => Failure(e)
      case Success(args) =>
        match Classify(l, args, t1.sorts, t1.lineSort)
        case Throws => Failure(Untranslatable(l.id))
        case Assign(e) => Success(BindWire(t1, l.id, e))
        case NotCombinational => Declare(t1, l, args)
  }

  predicate AllWellShaped(lines: seq<Line>)
  {
    forall i :: 0 <= i < |lines| ==> WellShaped(lines[i])
  }

  /** The whole loop: every line in order, stopping at the first failure. */
  function Run(t: Tables, lines: seq<Line>): Result<Tables, Failure>
    requires AllWellShaped(lines)
    decreases |lines|
  {
    if lines == [] then Success(t)
    else
      assert AllWellShaped(lines[1..]) by { assert forall i :: 0 <= i < |lines| - 1 ==> lines[1..][i] == lines[i + 1]; }
      var s := Step(t, lines[0]);
      if s.Failure? then Failure(s.error) else Run(s.value, lines[1..])
  }

  /** The effect of the records the driver handles itself: a property is stored negated,
      a constraint unchanged, an array reset value as a uniform fill, and a next-state
      expression under the state's name. */
  lemma RecordLines(t: Tables, l: Line)
    requires WellShaped(l) && (l.tag == Bad || l.tag == Constraint || l.tag == Init || l.tag == Next)
    requires ResolveSort(t, l).Success?
    ensures
      var t1 := ResolveSort(t, l).value;
      var g := Gather(t1.symbols, l, l.nargs);
      && (g.Failure? ==> Step(t, l) == Failure(g.error))
      && (g.Success? && l.tag == Bad ==> Step(t, l) == Success(t1.(props := t1.props + ["~" + g.value[0]])))
      && (g.Success? && l.tag == Constraint ==>
            Step(t, l) == Success(t1.(constraints := t1.constraints + [g.value[0]])))
      && (g.Success? && l.tag == Init && t1.lineSort.k == ArrayKind ==>
            Step(t, l) == Success(t1.(init := t1.init[g.value[0] := "'{default:" + g.value[1] + "}"])))
      && (g.Success? && l.tag == Init && t1.lineSort.k == BitVecKind ==>
            Step(t, l) == Success(t1.(init := t1.init[g.value[0] := g.value[1]])))
      && (g.Success? && l.tag == Next ==> Step(t, l) == Success(t1.(updates := t1.updates[g.value[0] := g.value[1]])))
  {
    var t1 := ResolveSort(t, l).value;
    StepCases(t, l);
    var g := Gather(t1.symbols, l, l.nargs);
    if g.Success? {
      assert !Handled(l.tag);
      DeclareRecords(t1, l, g.value);
    }
  }

  /** A constant line binds a wire `w<id>` to a literal sized by the line's sort. */
  lemma ConstantStep(t: Tables, l: Line)
    requires IsConstantTag(l.tag) && l.nargs == 0
    requires l.sortId != 0 && l.sortId in t.sorts
    ensures
      var t1 := ResolveSort(t, l).value;
      Step(t, l) == Success(BindWire(t1, l.id, ConstantText(l.tag, t.sorts[l.sortId], l.constant).value))
  {
    var t1 := t.(lineSort := t.sorts[l.sortId], sorts := t.sorts[l.id := t.sorts[l.sortId]]);
    assert ResolveSort(t, l) == Success(t1);
    StepCases(t, l);
    assert Gather(t1.symbols, l, 0) == Success([]);
    ConstantTagNotHandled(l.tag);
    DeclareBinds(t1, l, []);
  }

  /** A sort line declares a bit-vector sort, or an array sort indexed and filled by two
      declared bit-vector sorts; an array over an array sort stops the pass. Either way the
      declared sort becomes the current line sort. */
  lemma SortLine(t: Tables, l: Line)
    requires l.tag == SortTag && l.nargs == 0
    ensures l.decl.BitVecDecl? ==>
      var s := BitVec(l.decl.width);
      Step(t, l) == Success(t.(lineSort := s, sorts := t.sorts[l.id := s]))
    ensures l.decl.ArrayDecl? && l.decl.index in t.sorts && l.decl.element in t.sorts ==>
      var s1, s2 := t.sorts[l.decl.index], t.sorts[l.decl.element];
      && (s1.k == ArrayKind || s2.k == ArrayKind ==> Step(t, l) == Failure(MultiDimensionalArray(l.id)))
      && (s1.k == BitVecKind && s2.k == BitVecKind ==>
            Step(t, l) == Success(t.(lineSort := Array(s1.w1, s2.w1), sorts := t.sorts[l.id := Array(s1.w1, s2.w1)])))
  {
    assert ResolveSort(t, l) == Success(t);
    StepCases(t, l);
    assert Gather(t.symbols, l, 0) == Success([]);
    DeclareBinds(t, l, []);
  }

  /** A `const` line of width 4 with literal 1010 assigns `4'b1010` to its wire. */
  lemma ConstantLine(t: Tables, l: Line)
    requires t == Empty().(sorts := map[1 := BitVec(4)])
    requires l == Line(2, Const, 1, BitVecDecl(0), [0, 0, 0], 0, "1010")
    ensures Step(t, l).Success? && "w2" in Step(t, l).value.wireAssigns
    ensures Step(t, l).value.wireAssigns["w2"] == "4'b1010"
  {
    ConstantStep(t, l);
    assert ConstantText(l.tag, BitVec(4), l.constant).value == IntToString(4) + "'b" + "1010";
    assert NatToString(4) == "4" && NatToString(2) == "2";
    assert "w" + IntToString(l.id) == "w2";
  }

  /** As written, an output driven by input line 2 (named `i0`) is assigned `w2`, a name
      no line is bound to; the corrected assignment is the input's own name. */
  lemma OutputOfInputAsWritten(t: Tables, l: Line)
    requires t == Empty().(sorts := map[1 := BitVec(1), 2 := BitVec(1)], symbols := map[2 := "i0"], inputs := {2})
    requires l == Line(3, Output, 0, BitVecDecl(0), [2, 0, 0], 1, "")
    ensures OutputAssignAsWritten(l) == "w2" && OutputAssignAsWritten(l) !in t.symbols.Values
    ensures Step(t, l).Success? && "o0" in Step(t, l).value.wireAssigns
    ensures Step(t, l).value.wireAssigns["o0"] == "i0"
  {
    assert NatToString(2) == "2" && NatToString(0) == "0";
    assert IntToString(2) == "2";
    assert "o" + NatToString(0) == "o0";
    assert "w2" != "i0";
    assert Resolve(t.symbols, Slot(l, 0)) == Success("i0");
    assert Gather(t.symbols, l, 0) == Success([]);
    assert Gather(t.symbols, l, 1) == Success([] + ["i0"]);
    assert Classify(l, ["i0"], t.sorts, t.lineSort) == NotCombinational;
    OutputAssignsDriver(t, l);
  }

  /** The corrected output assignment is the resolved text of the output's argument: the
      driver's own name, complemented when the argument id is negative. */
  lemma OutputAssignsDriver(t: Tables, l: Line)
    requires l.tag == Output && WellShaped(l) && ResolveSort(t, l).Success?
    requires Step(t, l).Success?
    ensures
      var t1 := ResolveSort(t, l).value;
      var name := "o" + NatToString(|t1.outputs|);
      var k := Slot(l, 0);
      && Abs(k) in t1.symbols
      && Step(t, l).value.wireAssigns[name] == (if k < 0 then "~" else "") + t1.symbols[Abs(k)]
      && Step(t, l).value.sorts[l.id] == t1.sorts[Abs(k)]
  {
    var t1 := ResolveSort(t, l).value;
    var g := Gather(t1.symbols, l, l.nargs);
    assert g.Success?;
    assert Resolve(t1.symbols, Slot(l, 0)) == Success(g.value[0]);
  }

  /** Tables only grow during the pass: nothing recorded is removed, the ordered lists
      are extended at the end, and a write descriptor is never replaced. */
  ghost predicate Extends(t: Tables, u: Tables)
  {
    && t.sorts.Keys <= u.sorts.Keys
    && t.symbols.Keys <= u.symbols.Keys
    && t.inputs <= u.inputs
    && t.outputs <= u.outputs
    && t.states <= u.states
    && t.wires <= u.wires
    && t.wireAssigns.Keys <= u.wireAssigns.Keys
    && t.init.Keys <= u.init.Keys
    && t.updates.Keys <= u.updates.Keys
    && t.constraints <= u.constraints
    && t.props <= u.props
    && (forall w :: w in t.writes ==> w in u.writes && u.writes[w] == t.writes[w])
  }

  lemma BindWireExtends(t: Tables, id: int, e: string)
    ensures Extends(t, BindWire(t, id, e))
  {
  }

  lemma OutputExtends(t: Tables, l: Line, args: seq<string>)
    requires |args| >= 1 && DeclareOutput(t, l, args).Success?
    ensures Extends(t, DeclareOutput(t, l, args).value)
  {
  }

  lemma SortExtends(t: Tables, l: Line)
    requires DeclareSort(t, l).Success?
    ensures Extends(t, DeclareSort(t, l).value)
  {
  }

  lemma WriteExtends(t: Tables, l: Line, args: seq<string>)
    requires DeclareWrite(t, l, args).Success?
    ensures Extends(t, DeclareWrite(t, l, args).value)
  {
  }

  lemma RecordExtends(t: Tables, l: Line, args: seq<string>)
    requires |args| == l.nargs >= Needed(l.tag) && Declare(t, l, args).Success?
    requires l.tag == State || l.tag == Input || l.tag == Constraint || l.tag == Init || l.tag == Next || l.tag == Bad
    ensures Extends(t, Declare(t, l, args).value)
  {
    DeclareBinds(t, l, args);
    DeclareRecords(t, l, args);
  }


  lemma DeclareExtends(t: Tables, l: Line, args: seq<string>)
    requires |args| == l.nargs >= Needed(l.tag) && Declare(t, l, args).Success?
    ensures Extends(t, Declare(t, l, args).value)
  {
    DeclareBinds(t, l, args);
    if IsConstantTag(l.tag) {
      BindWireExtends(t, l.id, ConstantText(l.tag, t.lineSort, l.constant).value);
    } else if l.tag == Output {
      OutputExtends(t, l, args);
    } else if l.tag == SortTag {
      SortExtends(t, l);
    } else if l.tag == Write {
      WriteExtends(t, l, args);
    } else {
      DeclareRecords(t, l, args);
      RecordExtends(t, l, args);
    }
  }


  lemma StepExtends(t: Tables, l: Line)
    requires WellShaped(l) && Step(t, l).Success?
    ensures Extends(t, Step(t, l).value)
  {
    var t1 := ResolveSort(t, l).value;
    assert Extends(t, t1);
    StepCases(t, l);
    var args := Gather(t1.symbols, l, l.nargs).value;
    var e := Classify(l, args, t1.sorts, t1.lineSort);
    if e.Assign? {
      BindWireExtends(t1, l.id, e.expr);
    } else {
      DeclareExtends(t1, l, args);
    }
  }


  lemma {:induction false} RunExtends(t: Tables, lines: seq<Line>)
    requires AllWellShaped(lines) && Run(t, lines).Success?
    ensures Extends(t, Run(t, lines).value)
    decreases |lines|
  {
    if lines != [] {
      assert AllWellShaped(lines[1..]) by { assert forall i :: 0 <= i < |lines| - 1 ==> lines[1..][i] == lines[i + 1]; }
      var t1 := Step(t, lines[0]).value;
      StepExtends(t, lines[0]);
      RunExtends(t1, lines[1..]);
    }
  }

  /** A bad-state line that is read successfully appends the negation of its resolved
      operand to the properties. */
  lemma BadStep(t: Tables, l: Line)
    requires WellShaped(l) && l.tag == Bad && Step(t, l).Success?
    ensures Resolve(t.symbols, Slot(l, 0)).Success?
    ensures Step(t, l).value.props == t.props + ["~" + Resolve(t.symbols, Slot(l, 0)).value]
  {
    var t1 := ResolveSort(t, l).value;
    assert t1.symbols == t.symbols && t1.props == t.props;
    RecordLines(t, l);
    var g := Gather(t1.symbols, l, l.nargs);
    assert g.Success?;
    assert Resolve(t.symbols, Slot(l, 0)) == Success(g.value[0]);
  }

  lemma SlicesWellShaped(lines: seq<Line>, i: int)
    requires AllWellShaped(lines) && 0 <= i <= |lines|
    ensures AllWellShaped(lines[..i]) && AllWellShaped(lines[i..])
  {
    assert forall k :: 0 <= k < i ==> lines[..i][k] == lines[k];
    assert forall k :: 0 <= k < |lines| - i ==> lines[i..][k] == lines[i + k];
  }

  /** Running a file is running its first i lines and then the rest from where they
      left the tables. */
  lemma {:induction false} RunSplits(t: Tables, lines: seq<Line>, i: int)
    requires AllWellShaped(lines) && 0 <= i <= |lines|
    ensures AllWellShaped(lines[..i]) && AllWellShaped(lines[i..])
    ensures Run(t, lines) ==
      (var front := Run(t, lines[..i]); if front.Failure? then front else Run(front.value, lines[i..]))
    decreases i
  {
    SlicesWellShaped(lines, i);
    if i == 0 {
      assert lines[i..] == lines;
    } else {
      assert AllWellShaped(lines[1..]) by { assert forall k :: 0 <= k < |lines| - 1 ==> lines[1..][k] == lines[k + 1]; }
      var s := Step(t, lines[0]);
      assert lines[..i][0] == lines[0];
      assert lines[..i][1..] == lines[1..][..i - 1];
      assert lines[1..][i - 1..] == lines[i..];
      if s.Success? {
        RunSplits(s.value, lines[1..], i - 1);
      }
    }
  }

  /** A bad-state line's negated operand, resolved against the tables the earlier lines
      built, is among the properties at the end of the run. */
  lemma RunRecordsBad(t: Tables, lines: seq<Line>, i: int) returns (j: int)
    requires AllWellShaped(lines) && 0 <= i < |lines| && lines[i].tag == Bad
    requires Run(t, lines).Success?
    ensures AllWellShaped(lines[..i]) && Run(t, lines[..i]).Success?
    ensures Resolve(Run(t, lines[..i]).value.symbols, Slot(lines[i], 0)).Success?
    ensures 0 <= j < |Run(t, lines).value.props|
    ensures Run(t, lines).value.props[j] == "~" + Resolve(Run(t, lines[..i]).value.symbols, Slot(lines[i], 0)).value
  {
    RunSplits(t, lines, i);
    var u := Run(t, lines[..i]).value;
    var rest := lines[i..];
    assert rest[0] == lines[i];
    assert AllWellShaped(rest[1..]) by { assert forall k :: 0 <= k < |rest| - 1 ==> rest[1..][k] == rest[k + 1]; }
    var s := Step(u, rest[0]);
    assert s.Success? && Run(u, rest) == Run(s.value, rest[1..]);
    BadStep(u, rest[0]);
    RunExtends(s.value, rest[1..]);
    j := |u.props|;
    assert s.value.props[j] == "~" + Resolve(u.symbols, Slot(lines[i], 0)).value;
  }

  /** A name derived from a positive line id: a wire, a state or a write shadow. */
  predicate IdName(s: string, k: int)
  {
    k > 0 && (s == "w" + NatToString(k) || s == "s" + NatToString(k) || s == "write_" + NatToString(k))
  }

  /** A numbered name: the prefix followed by a number below n. */
  predicate CountName(s: string, prefix: char, n: nat)
  {
    |s| >= 2 && s[0] == prefix && AllDigits(s[1..]) && ParseNat(s[1..]) < n
  }

  /** The symbol table's naming discipline: every bound id is positive and below `bound`,
      its name is id-derived or numbered within the inputs or outputs seen so far, the
      inputs and outputs are bound ids, and no two ids share a name. */
  ghost predicate WellNamed(t: Tables, bound: int)
  {
    && (forall k :: k in t.symbols ==> 0 < k < bound)
    && (forall k :: k in t.symbols ==>
          IdName(t.symbols[k], k) || CountName(t.symbols[k], 'i', |t.inputs|) || CountName(t.symbols[k], 'o', |t.outputs|))
    && t.inputs <= t.symbols.Keys
    && t.outputs <= t.symbols.Keys
    && (forall a, b :: a in t.symbols && b in t.symbols && a != b ==> t.symbols[a] != t.symbols[b])
  }

  lemma IdNamesDistinct(k: nat, id: nat, pk: string, pid: string)
    requires k != id
    requires pk == "w" || pk == "s" || pk == "write_"
    requires pid == "w" || pid == "s" || pid == "write_"
    ensures pk + NatToString(k) != pid + NatToString(id)
  {
    NatToStringInjective(k, id);
    var a, b := NatToString(k), NatToString(id);
    if pk == pid {
      assert (pk + a)[|pk|..] == a;
      assert (pid + b)[|pid|..] == b;
    } else if pk[0] != pid[0] {
      assert (pk + a)[0] == pk[0];
      assert (pid + b)[0] == pid[0];
    } else {
      assert (pk + a)[1] != (pid + b)[1] by {
        assert IsDigit(a[0]) && IsDigit(b[0]);
        assert (pk + a)[1] == if pk == "w" then a[0] else 'r';
        assert (pid + b)[1] == if pid == "w" then b[0] else 'r';
      }
    }
  }

  lemma NumberedName(prefix: char, n: nat)
    ensures CountName([prefix] + NatToString(n), prefix, n + 1)
    ensures ParseNat(([prefix] + NatToString(n))[1..]) == n
  {
    assert ([prefix] + NatToString(n))[1..] == NatToString(n);
    ParseNatToString(n);
  }

  /** A name bound at a fresh id differs from every name already bound. */
  lemma DistinctNames(v: string, k: int, name: string, id: int, ni: nat, no: nat)
    requires k != id
    requires IdName(v, k) || CountName(v, 'i', ni) || CountName(v, 'o', no)
    requires IdName(name, id) || name == "i" + NatToString(ni) || name == "o" + NatToString(no)
    ensures v != name
  {
    if IdName(v, k) && IdName(name, id) {
      var pk := if v == "w" + NatToString(k) then "w" else if v == "s" + NatToString(k) then "s" else "write_";
      var pid := if name == "w" + NatToString(id) then "w" else if name == "s" + NatToString(id) then "s" else "write_";
      IdNamesDistinct(k, id, pk, pid);
    } else if IdName(name, id) {
      assert name[0] == 'w' || name[0] == 's';
    } else if name == "i" + NatToString(ni) {
      NumberedName('i', ni);
      assert name[0] == 'i';
    } else {
      NumberedName('o', no);
      assert name[0] == 'o';
    }
  }

  /** The shape of the name bound to a fresh id: id-derived, or the next input or output
      number. */
  predicate FreshName(t: Tables, id: int, name: string, u: Tables)
  {
    && u.symbols == t.symbols[id := name]
    && (|| (IdName(name, id) && u.inputs == t.inputs && u.outputs == t.outputs)
        || (name == "i" + NatToString(|t.inputs|) && u.inputs == t.inputs + {id} && u.outputs == t.outputs)
        || (name == "o" + NatToString(|t.outputs|) && u.outputs == t.outputs + {id} && u.inputs == t.inputs))
  }

  /** Every name after the binding still has its shape, counted against the new inputs
      and outputs. */
  lemma FreshNameShapes(t: Tables, bound: int, id: int, name: string, u: Tables)
    requires WellNamed(t, bound) && id >= bound && id > 0
    requires FreshName(t, id, name, u)
    ensures forall k :: k in u.symbols ==>
      IdName(u.symbols[k], k) || CountName(u.symbols[k], 'i', |u.inputs|) || CountName(u.symbols[k], 'o', |u.outputs|)
  {
    assert id !in t.symbols;
    assert |u.inputs| >= |t.inputs| && |u.outputs| >= |t.outputs|;
    if name == "i" + NatToString(|t.inputs|) && u.inputs == t.inputs + {id} {
      NumberedName('i', |t.inputs|);
      assert |u.inputs| == |t.inputs| + 1;
    }
    if name == "o" + NatToString(|t.outputs|) && u.outputs == t.outputs + {id} {
      NumberedName('o', |t.outputs|);
      assert |u.outputs| == |t.outputs| + 1;
    }
  }

  /** The fresh name differs from every name already bound. */
  lemma FreshNameDistinct(t: Tables, bound: int, id: int, name: string, u: Tables)
    requires WellNamed(t, bound) && id >= bound && id > 0
    requires FreshName(t, id, name, u)
    ensures forall k :: k in t.symbols ==> t.symbols[k] != name
  {
    forall k | k in t.symbols
      ensures t.symbols[k] != name
    {
      DistinctNames(t.symbols[k], k, name, id, |t.inputs|, |t.outputs|);
    }
  }

  /** Binding a fresh id to an id-derived or next numbered name keeps the discipline. */
  lemma AddName(t: Tables, bound: int, id: int, name: string, u: Tables)
    requires WellNamed(t, bound) && id >= bound && id > 0
    requires FreshName(t, id, name, u)
    ensures WellNamed(u, id + 1)
  {
    FreshNameShapes(t, bound, id, name, u);
    FreshNameDistinct(t, bound, id, name, u);
  }

  lemma WireKeepsWellNamed(t: Tables, bound: int, id: int, e: string)
    requires WellNamed(t, bound) && id >= bound && id > 0
    ensures WellNamed(BindWire(t, id, e), id + 1)
  {
    AddName(t, bound, id, "w" + NatToString(id), BindWire(t, id, e));
  }

  lemma StateKeepsWellNamed(t: Tables, bound: int, id: int)
    requires WellNamed(t, bound) && id >= bound && id > 0
    ensures WellNamed(DeclareState(t, id), id + 1)
  {
    AddName(t, bound, id, "s" + NatToString(id), DeclareState(t, id));
  }

  lemma InputKeepsWellNamed(t: Tables, bound: int, id: int)
    requires WellNamed(t, bound) && id >= bound && id > 0
    ensures WellNamed(DeclareInput(t, id), id + 1)
  {
    AddName(t, bound, id, "i" + NatToString(|t.inputs|), DeclareInput(t, id));
  }

  lemma OutputKeepsWellNamed(t: Tables, bound: int, l: Line, args: seq<string>)
    requires |args| >= 1 && DeclareOutput(t, l, args).Success?
    requires WellNamed(t, bound) && l.id >= bound && l.id > 0
    ensures WellNamed(DeclareOutput(t, l, args).value, l.id + 1)
  {
    AddName(t, bound, l.id, "o" + NatToString(|t.outputs|), DeclareOutput(t, l, args).value);
  }

  lemma WriteKeepsWellNamed(t: Tables, bound: int, l: Line, args: seq<string>)
    requires DeclareWrite(t, l, args).Success?
    requires WellNamed(t, bound) && l.id >= bound && l.id > 0
    ensures WellNamed(DeclareWrite(t, l, args).value, l.id + 1)
  {
    AddName(t, bound, l.id, "write_" + NatToString(l.id), DeclareWrite(t, l, args).value);
  }

  /** What `Declare` does for the lines that bind a name or declare a sort. */
  lemma DeclareBinds(t: Tables, l: Line, args: seq<string>)
    requires |args| == l.nargs >= Needed(l.tag)
    ensures IsConstantTag(l.tag) ==>
      Declare(t, l, args) == Success(BindWire(t, l.id, ConstantText(l.tag, t.lineSort, l.constant).value))
    ensures l.tag == State ==> Declare(t, l, args) == Success(DeclareState(t, l.id))
    ensures l.tag == Input ==> Declare(t, l, args) == Success(DeclareInput(t, l.id))
    ensures l.tag == Output ==> Declare(t, l, args) == DeclareOutput(t, l, args)
    ensures l.tag == Write ==> Declare(t, l, args) == DeclareWrite(t, l, args)
    ensures l.tag == SortTag ==> Declare(t, l, args) == DeclareSort(t, l)
  {
  }

  /** What `Declare` does for the lines that only record a condition or a state value,
      and for the tags no branch handles. */
  lemma DeclareRecords(t: Tables, l: Line, args: seq<string>)
    requires |args| == l.nargs >= Needed(l.tag)
    ensures l.tag == Constraint ==> Declare(t, l, args) == Success(t.(constraints := t.constraints + [args[0]]))
    ensures l.tag == Init ==> Declare(t, l, args) == Success(t.(init := t.init[args[0] := InitValue(t.lineSort, args[1])]))
    ensures l.tag == Next ==> Declare(t, l, args) == Success(t.(updates := t.updates[args[0] := args[1]]))
    ensures l.tag == Bad ==> Declare(t, l, args) == Success(t.(props := t.props + ["~" + args[0]]))
    ensures (&& !IsConstantTag(l.tag) && l.tag != State && l.tag != Input && l.tag != Output
             && l.tag != SortTag && l.tag != Constraint && l.tag != Init && l.tag != Next
             && l.tag != Bad && l.tag != Write)
      ==> Declare(t, l, args) == Failure(UnhandledTag(l.id))
  {
  }

  /** What `Step` does once the line's sort is resolved: fail at the first unresolved
      argument, bind a wire to a combinational expression, or leave the line to `Declare`. */
  lemma StepCases(t: Tables, l: Line)
    requires WellShaped(l) && ResolveSort(t, l).Success?
    ensures
      var t1 := ResolveSort(t, l).value;
      var g := Gather(t1.symbols, l, l.nargs);
      && (g.Failure? ==> Step(t, l) == Failure(g.error))
      && (g.Success? ==>
            var e := Classify(l, g.value, t1.sorts, t1.lineSort);
            && (e.Throws? ==> Step(t, l) == Failure(Untranslatable(l.id)))
            && (e.Assign? ==> Step(t, l) == Success(BindWire(t1, l.id, e.expr)))
            && (e.NotCombinational? ==> Step(t, l) == Declare(t1, l, g.value)))
  {
  }

  lemma DeclareKeepsWellNamed(t: Tables, l: Line, args: seq<string>, bound: int)
    requires |args| == l.nargs >= Needed(l.tag) && Declare(t, l, args).Success?
    requires WellNamed(t, bound) && l.id >= bound && l.id > 0
    ensures WellNamed(Declare(t, l, args).value, l.id + 1)
  {
    DeclareBinds(t, l, args);
    if IsConstantTag(l.tag) {
      WireKeepsWellNamed(t, bound, l.id, ConstantText(l.tag, t.lineSort, l.constant).value);
    } else if l.tag == State {
      StateKeepsWellNamed(t, bound, l.id);
    } else if l.tag == Input {
      InputKeepsWellNamed(t, bound, l.id);
    } else if l.tag == Output {
      OutputKeepsWellNamed(t, bound, l, args);
    } else if l.tag == Write {
      WriteKeepsWellNamed(t, bound, l, args);
    } else if l.tag != SortTag {
      DeclareRecords(t, l, args);
      RecordKeepsNames(t, l, args);
    }
  }

  lemma RecordKeepsNames(t: Tables, l: Line, args: seq<string>)
    requires |args| == l.nargs >= Needed(l.tag) && Declare(t, l, args).Success?
    requires l.tag == Constraint || l.tag == Init || l.tag == Next || l.tag == Bad
    ensures var u := Declare(t, l, args).value;
      u.symbols == t.symbols && u.inputs == t.inputs && u.outputs == t.outputs
  {
    DeclareRecords(t, l, args);
  }


  lemma StepKeepsWellNamed(t: Tables, l: Line, bound: int)
    requires WellShaped(l) && Step(t, l).Success?
    requires WellNamed(t, bound) && l.id >= bound && l.id > 0
    ensures WellNamed(Step(t, l).value, l.id + 1)
  {
    var t1 := ResolveSort(t, l).value;
    assert WellNamed(t1, bound);
    StepCases(t, l);
    var args := Gather(t1.symbols, l, l.nargs).value;
    var e := Classify(l, args, t1.sorts, t1.lineSort);
    if e.Assign? {
      WireKeepsWellNamed(t1, bound, l.id, e.expr);
    } else {
      DeclareKeepsWellNamed(t1, l, args, bound);
    }
  }


  /** Line ids are positive, at least `bound`, and strictly increasing. */
  predicate IdsIncrease(lines: seq<Line>, bound: int)
  {
    && (forall i :: 0 <= i < |lines| ==> lines[i].id >= bound && lines[i].id > 0)
    && (forall i, j :: 0 <= i < j < |lines| ==> lines[i].id < lines[j].id)
  }

  /** After the first line, the ids still increase, from above the first id. */
  lemma IdsIncreaseTail(lines: seq<Line>, bound: int)
    requires IdsIncrease(lines, bound) && |lines| > 0
    ensures IdsIncrease(lines[1..], lines[0].id + 1)
  {
    forall i | 0 <= i < |lines| - 1 ensures lines[1..][i].id >= lines[0].id + 1 {
      assert lines[0].id < lines[i + 1].id;
    }
  }

  lemma {:induction false} RunKeepsWellNamed(t: Tables, lines: seq<Line>, bound: int)
    requires AllWellShaped(lines) && Run(t, lines).Success?
    requires WellNamed(t, bound) && IdsIncrease(lines, bound)
    ensures exists b :: WellNamed(Run(t, lines).value, b)
    decreases |lines|
  {
    if lines == [] {
      assert WellNamed(Run(t, lines).value, bound);
    } else {
      assert AllWellShaped(lines[1..]) by { assert forall i :: 0 <= i < |lines| - 1 ==> lines[1..][i] == lines[i + 1]; }
      var l := lines[0];
      StepKeepsWellNamed(t, l, bound);
      IdsIncreaseTail(lines, bound);
      RunKeepsWellNamed(Step(t, l).value, lines[1..], l.id + 1);
    }
  }

  /** Between t and u, only the name and sort of `id` may have been bound or changed. */
  ghost predicate RebindsOnly(t: Tables, u: Tables, id: int)
  {
    && (forall k :: k != id ==> Lookup(u.symbols, k) == Lookup(t.symbols, k))
    && (forall k :: k != id ==> Lookup(u.sorts, k) == Lookup(t.sorts, k))
  }

  /** Every dispatched line binds a name or a sort, if any, only for its own id. */
  lemma DeclareRebindsOnly(t: Tables, l: Line, args: seq<string>)
    requires |args| == l.nargs >= Needed(l.tag) && Declare(t, l, args).Success?
    ensures RebindsOnly(t, Declare(t, l, args).value, l.id)
  {
    if l.tag == SortTag {
      DeclareBinds(t, l, args);
      SortRebindsOnly(t, l);
    } else if IsConstantTag(l.tag) || l.tag == State || l.tag == Input || l.tag == Output || l.tag == Write {
      BindingRebindsOnly(t, l, args);
    } else {
      DeclareRecords(t, l, args);
      RebindsOnlyOf(t, Declare(t, l, args).value, l.id);
    }
  }

  lemma BindingRebindsOnly(t: Tables, l: Line, args: seq<string>)
    requires |args| == l.nargs >= Needed(l.tag) && Declare(t, l, args).Success?
    requires IsConstantTag(l.tag) || l.tag == State || l.tag == Input || l.tag == Output || l.tag == Write
    ensures RebindsOnly(t, Declare(t, l, args).value, l.id)
  {
    DeclareBinds(t, l, args);
    RebindsOnlyOf(t, Declare(t, l, args).value, l.id);
  }

  lemma SortRebindsOnly(t: Tables, l: Line)
    requires DeclareSort(t, l).Success?
    ensures RebindsOnly(t, DeclareSort(t, l).value, l.id)
  {
    RebindsOnlyOf(t, DeclareSort(t, l).value, l.id);
  }

  /** Leaving a table alone or binding only `id` in it rebinds nothing else. */
  lemma RebindsOnlyOf(t: Tables, u: Tables, id: int)
    requires u.symbols == t.symbols || (id in u.symbols && u.symbols == t.symbols[id := u.symbols[id]])
    requires u.sorts == t.sorts || (id in u.sorts && u.sorts == t.sorts[id := u.sorts[id]])
    ensures RebindsOnly(t, u, id)
  {
  }

  /** One iteration binds a name or a sort, if any, only for the line's own id. */
  lemma StepRebindsOnly(t: Tables, l: Line)
    requires WellShaped(l) && Step(t, l).Success?
    ensures RebindsOnly(t, Step(t, l).value, l.id)
  {
    var t1 := ResolveSort(t, l).value;
    assert RebindsOnly(t, t1, l.id);
    StepCases(t, l);
    var args := Gather(t1.symbols, l, l.nargs).value;
    var e := Classify(l, args, t1.sorts, t1.lineSort);
    if e.NotCombinational? {
      DeclareRebindsOnly(t1, l, args);
    }
  }

  /** The names and sorts bound so far belong to ids below `bound`. */
  predicate KeysBelow(t: Tables, bound: int)
  {
    && (forall k :: k in t.symbols ==> k < bound)
    && (forall k :: k in t.sorts ==> k < bound)
  }

  /** A pass over lines with increasing ids never rebinds a name or a sort bound before
      it: each line's name and sort are written once. */
  lemma {:induction false} RunKeepsBindings(t: Tables, lines: seq<Line>, bound: int)
    requires AllWellShaped(lines) && Run(t, lines).Success?
    requires IdsIncrease(lines, bound) && KeysBelow(t, bound)
    ensures forall k :: k in t.symbols ==> Lookup(Run(t, lines).value.symbols, k) == Some(t.symbols[k])
    ensures forall k :: k in t.sorts ==> Lookup(Run(t, lines).value.sorts, k) == Some(t.sorts[k])
    decreases |lines|
  {
    if lines != [] {
      assert AllWellShaped(lines[1..]) by { assert forall i :: 0 <= i < |lines| - 1 ==> lines[1..][i] == lines[i + 1]; }
      var l := lines[0];
      var t1 := Step(t, l).value;
      StepRebindsOnly(t, l);
      assert KeysBelow(t1, l.id + 1) by {
        forall k | k in t1.symbols && k != l.id ensures k < l.id {
          assert Lookup(t1.symbols, k) == Lookup(t.symbols, k);
        }
        forall k | k in t1.sorts && k != l.id ensures k < l.id {
          assert Lookup(t1.sorts, k) == Lookup(t.sorts, k);
        }
      }
      IdsIncreaseTail(lines, bound);
      RunKeepsBindings(t1, lines[1..], l.id + 1);
      forall k | k in t.symbols ensures Lookup(t1.symbols, k) == Some(t.symbols[k]) {
        assert k != l.id;
      }
      forall k | k in t.sorts ensures Lookup(t1.sorts, k) == Some(t.sorts[k]) {
        assert k != l.id;
      }
    }
  }

  /** After a pass over lines with ids below `top`, every bound key is below `top`. */
  lemma {:induction false} RunKeysBelow(t: Tables, lines: seq<Line>, bound: int, top: int)
    requires AllWellShaped(lines) && Run(t, lines).Success?
    requires IdsIncrease(lines, bound) && KeysBelow(t, bound) && bound <= top
    requires forall i :: 0 <= i < |lines| ==> lines[i].id < top
    ensures KeysBelow(Run(t, lines).value, top)
    decreases |lines|
  {
    if lines != [] {
      assert AllWellShaped(lines[1..]) by { assert forall i :: 0 <= i < |lines| - 1 ==> lines[1..][i] == lines[i + 1]; }
      var l := lines[0];
      var t1 := Step(t, l).value;
      StepRebindsOnly(t, l);
      assert KeysBelow(t1, l.id + 1) by {
        forall k | k in t1.symbols && k != l.id ensures k < l.id {
          assert Lookup(t1.symbols, k) == Lookup(t.symbols, k);
        }
        forall k | k in t1.sorts && k != l.id ensures k < l.id {
          assert Lookup(t1.sorts, k) == Lookup(t.sorts, k);
        }
      }
      IdsIncreaseTail(lines, bound);
      RunKeysBelow(t1, lines[1..], l.id + 1, top);
    }
  }

  /** The name and sort a line is given when it is read are the ones it has at the end of
      a successful pass over increasing positive ids. */
  lemma LineBindingFinal(lines: seq<Line>, i: int)
    requires AllWellShaped(lines) && IdsIncrease(lines, 1) && 0 <= i < |lines|
    requires Run(Empty(), lines).Success?
    ensures AllWellShaped(lines[..i + 1]) && Run(Empty(), lines[..i + 1]).Success?
    ensures
      var read := Run(Empty(), lines[..i + 1]).value;
      var last := Run(Empty(), lines).value;
      && (forall k :: k in read.symbols ==> Lookup(last.symbols, k) == Some(read.symbols[k]))
      && (forall k :: k in read.sorts ==> Lookup(last.sorts, k) == Some(read.sorts[k]))
  {
    RunSplits(Empty(), lines, i + 1);
    IdsIncreaseSplit(lines, 1, i + 1);
    RunKeysBelow(Empty(), lines[..i + 1], 1, lines[i].id + 1);
    RunKeepsBindings(Run(Empty(), lines[..i + 1]).value, lines[i + 1..], lines[i].id + 1);
  }

  /** Both parts of lines with increasing ids have increasing ids: the front ones below
      the id after its last, the rest from there on. */
  lemma IdsIncreaseSplit(lines: seq<Line>, bound: int, j: int)
    requires IdsIncrease(lines, bound) && 0 < j <= |lines|
    ensures IdsIncrease(lines[..j], bound)
    ensures forall a :: 0 <= a < j ==> lines[..j][a].id < lines[j - 1].id + 1
    ensures IdsIncrease(lines[j..], lines[j - 1].id + 1)
  {
    var front, rest := lines[..j], lines[j..];
    assert forall a :: 0 <= a < |front| ==> front[a] == lines[a];
    forall a | 0 <= a < j ensures front[a].id < lines[j - 1].id + 1 {
      assert front[a] == lines[a];
    }
    forall a | 0 <= a < |rest| ensures rest[a].id >= lines[j - 1].id + 1 {
      assert rest[a] == lines[j + a];
    }
    assert forall a :: 0 <= a < |rest| ==> rest[a] == lines[j + a];
  }

  /** Generated names are unique: after a successful pass over lines with increasing
      positive ids, no two ids share a name. */
  lemma NamesUnique(lines: seq<Line>)
    requires AllWellShaped(lines) && IdsIncrease(lines, 1) && Run(Empty(), lines).Success?
    ensures var s := Run(Empty(), lines).value.symbols;
      forall a, b :: a in s && b in s && a != b ==> s[a] != s[b]
  {
    RunKeepsWellNamed(Empty(), lines, 1);
  }
}
