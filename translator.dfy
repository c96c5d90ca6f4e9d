/** The translator object: the tables the `parse` loop fills in place and the module
    text `gen_verilog` appends to, each method proved against the pure definitions. */
module Translation {
  import opened Wrappers
  import opened Text
  import opened Btor2
  import opened Classifier
  import opened Driver
  import opened Assembler

  /** Appending two texts one after the other appends their join. */
  lemma AppendTwice(a: string, b: string, c: string)
    ensures a + b + c == a + (b + c)
  {
  }

  class Translator {
    var sorts: map<int, Sort>
    var symbols: map<int, string>
    var inputs: set<int>
    var outputs: set<int>
    var states: seq<int>
    var wires: seq<int>
    var wireAssigns: map<string, string>
    var init: map<string, string>
    var stateUpdates: map<string, string>
    var constraints: seq<string>
    var props: seq<string>
    var writes: map<string, WriteDesc>
    var lineSort: Sort
    var verilog: string

    /** The tables as a value: every field except the module text. */
    function Snapshot(): Tables
      reads this`sorts, this`symbols, this`inputs, this`outputs, this`states, this`wires, this`wireAssigns
      reads this`init, this`stateUpdates, this`constraints, this`props, this`writes, this`lineSort
    {
      Tables(sorts, symbols, inputs, outputs, states, wires, wireAssigns, init, stateUpdates,
             constraints, props, writes, lineSort)
    }

    constructor ()
      ensures Snapshot() == Empty() && verilog == ""
    {
      sorts := map[];
      symbols := map[];
      inputs := {};
      outputs := {};
      states := [];
      wires := [];
      wireAssigns := map[];
      init := map[];
      stateUpdates := map[];
      constraints := [];
      props := [];
      writes := map[];
      lineSort := BitVec(0);
      verilog := "";
    }

    /** The argument loop of `parse`: resolves each argument id through the symbol table,
        complementing negated ones, and stops at the first unbound id. */
    method GatherArgs(l: Line) returns (r: Result<seq<string>, Failure>)
      ensures r == Gather(symbols, l, l.nargs)
    {
      var args: seq<string> := [];
      var i := 0;
      while i < l.nargs
        invariant 0 <= i <= l.nargs
        invariant Gather(symbols, l, i) == Success(args)
      {
        var idx := Slot(l, i);
        if idx < 0 {
          if -idx !in symbols {
            r := Failure(MissingSymbol(-idx));
            GatherKeepsFailure(symbols, l, i + 1, l.nargs);
            return;
          }
          args := args + ["~" + symbols[-idx]];
        } else {
          if idx !in symbols {
            r := Failure(MissingSymbol(idx));
            GatherKeepsFailure(symbols, l, i + 1, l.nargs);
            return;
          }
          args := args + [symbols[idx]];
        }
        i := i + 1;
      }
      r := Success(args);
    }

    /** Binds the wire `w<id>` to an expression. */
    method AddWire(id: int, expr: string)
      modifies this
      ensures Snapshot() == BindWire(old(Snapshot()), id, expr) && verilog == old(verilog)
    {
      var name := "w" + IntToString(id);
      wires := wires + [id];
      symbols := symbols[id := name];
      wireAssigns := wireAssigns[name := expr];
    }

    /** A sort line: a bit-vector sort, or an array sort over two bit-vector sorts. */
    method AddSort(l: Line) returns (outcome: Outcome)
      modifies this
      ensures verilog == old(verilog)
      ensures DeclareSort(old(Snapshot()), l).Success? ==> outcome == Pass && Snapshot() == DeclareSort(old(Snapshot()), l).value
      ensures DeclareSort(old(Snapshot()), l).Failure? ==> outcome == Fail(DeclareSort(old(Snapshot()), l).error)
    {
      match l.decl
      case BitVecDecl(w) =>
        lineSort := BitVec(w);
        sorts := sorts[l.id := lineSort];
        outcome := Pass;
      case ArrayDecl(index, element) =>
        if index !in sorts {
          return Fail(MissingSort(index));
        }
        if element !in sorts {
          return Fail(MissingSort(element));
        }
        var s1, s2 := sorts[index], sorts[element];
        if s1.k != BitVecKind || s2.k != BitVecKind {
          return Fail(MultiDimensionalArray(l.id));
        }
        lineSort := Array(s1.w1, s2.w1);
        sorts := sorts[l.id := lineSort];
        outcome := Pass;
    }

    /** An output line: numbered like the inputs, given its driver's sort and assigned the
        driver's text. */
    method AddOutput(l: Line, args: seq<string>) returns (outcome: Outcome)
      requires |args| >= 1
      modifies this
      ensures verilog == old(verilog)
      ensures DeclareOutput(old(Snapshot()), l, args).Success? ==>
        outcome == Pass && Snapshot() == DeclareOutput(old(Snapshot()), l, args).value
      ensures DeclareOutput(old(Snapshot()), l, args).Failure? ==>
        outcome == Fail(DeclareOutput(old(Snapshot()), l, args).error)
    {
      var name := "o" + NatToString(|outputs|);
      var driver := Abs(Slot(l, 0));
      if driver !in sorts {
        return Fail(MissingSort(driver));
      }
      outputs := outputs + {l.id};
      symbols := symbols[l.id := name];
      sorts := sorts[l.id := sorts[driver]];
      wireAssigns := wireAssigns[name := args[0]];
      outcome := Pass;
    }

    /** A write line: the shadow array `write_<id>` and its descriptor. */
    method AddWrite(l: Line, args: seq<string>) returns (outcome: Outcome)
      modifies this
      ensures verilog == old(verilog)
      ensures DeclareWrite(old(Snapshot()), l, args).Success? ==>
        outcome == Pass && Snapshot() == DeclareWrite(old(Snapshot()), l, args).value
      ensures DeclareWrite(old(Snapshot()), l, args).Failure? ==>
        outcome == Fail(DeclareWrite(old(Snapshot()), l, args).error)
    {
      var name := "write_" + IntToString(l.id);
      if |args| != 3 || name in writes {
        return Fail(WriteAssertion(l.id));
      }
      symbols := symbols[l.id := name];
      writes := writes[name := WriteDesc(args[0], args[1], args[2], lineSort.w1, lineSort.w2)];
      outcome := Pass;
    }

    /** A state line: the register `s<id>`. */
    method AddState(id: int)
      modifies this
      ensures Snapshot() == DeclareState(old(Snapshot()), id) && verilog == old(verilog)
    {
      states := states + [id];
      symbols := symbols[id := "s" + IntToString(id)];
    }

    /** An input line: the port `i<number of inputs so far>`. */
    method AddInput(id: int)
      modifies this
      ensures Snapshot() == DeclareInput(old(Snapshot()), id) && verilog == old(verilog)
    {
      var name := "i" + NatToString(|inputs|);
      inputs := inputs + {id};
      symbols := symbols[id := name];
    }

    /** An init line: the reset value of a state, a uniform fill for an array. */
    method AddInit(state: string, value: string)
      modifies this
      ensures Snapshot() == old(Snapshot()).(init := old(init)[state := InitValue(old(lineSort), value)])
      ensures verilog == old(verilog)
    {
      if lineSort.k == ArrayKind {
        init := init[state := "'{default:" + value + "}"];
      } else {
        init := init[state := value];
      }
    }

    /** A constraint line: the condition, kept in order. */
    method AddConstraint(c: string)
      modifies this
      ensures Snapshot() == old(Snapshot()).(constraints := old(constraints) + [c]) && verilog == old(verilog)
    {
      constraints := constraints + [c];
    }

    /** A next line: the next-state expression under the state's name. */
    method AddNext(state: string, value: string)
      modifies this
      ensures Snapshot() == old(Snapshot()).(updates := old(stateUpdates)[state := value]) && verilog == old(verilog)
    {
      stateUpdates := stateUpdates[state := value];
    }

    /** A bad line: the negated condition, kept in order. */
    method AddBad(c: string)
      modifies this
      ensures Snapshot() == old(Snapshot()).(props := old(props) + ["~" + c]) && verilog == old(verilog)
    {
      props := props + ["~" + c];
    }

    /** The lines the classifier leaves to the driver, tested in the source's order: first
        those that bind a name or declare a sort, then the rest. */
    method Record(l: Line, args: seq<string>) returns (outcome: Outcome)
      requires |args| == l.nargs >= Needed(l.tag)
      modifies this
      ensures verilog == old(verilog)
      ensures Declare(old(Snapshot()), l, args).Success? ==>
        outcome == Pass && Snapshot() == Declare(old(Snapshot()), l, args).value
      ensures Declare(old(Snapshot()), l, args).Failure? ==>
        outcome == Fail(Declare(old(Snapshot()), l, args).error)
    {
      if IsConstantTag(l.tag) || l.tag == State || l.tag == Input || l.tag == Output || l.tag == SortTag {
        outcome := BindLine(l, args);
      } else {
        outcome := RecordCondition(l, args);
      }
    }

    /** Constant, state, input, output and sort lines. */
    method BindLine(l: Line, args: seq<string>) returns (outcome: Outcome)
      requires |args| == l.nargs >= Needed(l.tag)
      requires IsConstantTag(l.tag) || l.tag == State || l.tag == Input || l.tag == Output || l.tag == SortTag
      modifies this
      ensures verilog == old(verilog)
      ensures Declare(old(Snapshot()), l, args).Success? ==>
        outcome == Pass && Snapshot() == Declare(old(Snapshot()), l, args).value
      ensures Declare(old(Snapshot()), l, args).Failure? ==>
        outcome == Fail(Declare(old(Snapshot()), l, args).error)
    {
      DeclareBinds(Snapshot(), l, args);
      var constant := ConstantText(l.tag, lineSort, l.constant);
      if constant.Some? {
        AddWire(l.id, constant.value);
        outcome := Pass;
      } else if l.tag == State {
        AddState(l.id);
        outcome := Pass;
      } else if l.tag == Input {
        AddInput(l.id);
        outcome := Pass;
      } else if l.tag == Output {
        outcome := AddOutput(l, args);
      } else {
        outcome := AddSort(l);
      }
    }

    /** Constraint, init, next, bad and write lines, and the tags no branch handles. */
    method RecordCondition(l: Line, args: seq<string>) returns (outcome: Outcome)
      requires |args| == l.nargs >= Needed(l.tag)
      requires !IsConstantTag(l.tag) && l.tag != State && l.tag != Input && l.tag != Output && l.tag != SortTag
      modifies this
      ensures verilog == old(verilog)
      ensures Declare(old(Snapshot()), l, args).Success? ==>
        outcome == Pass && Snapshot() == Declare(old(Snapshot()), l, args).value
      ensures Declare(old(Snapshot()), l, args).Failure? ==>
        outcome == Fail(Declare(old(Snapshot()), l, args).error)
    {
      DeclareRecords(Snapshot(), l, args);
      if l.tag == Constraint {
        AddConstraint(args[0]);
        outcome := Pass;
      } else if l.tag == Init {
        AddInit(args[0], args[1]);
        outcome := Pass;
      } else if l.tag == Next {
        AddNext(args[0], args[1]);
        outcome := Pass;
      } else if l.tag == Bad {
        AddBad(args[0]);
        outcome := Pass;
      } else if l.tag == Write {
        DeclareBinds(Snapshot(), l, args);
        outcome := AddWrite(l, args);
      } else {
        outcome := Fail(UnhandledTag(l.id));
      }
    }

    /** One iteration of the loop of `parse`: resolve the line's sort, gather its
        arguments, then bind a combinational wire or record the line. */
    method ProcessLine(l: Line) returns (outcome: Outcome)
      requires WellShaped(l)
      modifies this
      ensures verilog == old(verilog)
      ensures Step(old(Snapshot()), l).Success? ==> outcome == Pass && Snapshot() == Step(old(Snapshot()), l).value
      ensures Step(old(Snapshot()), l).Failure? ==> outcome == Fail(Step(old(Snapshot()), l).error)
    {
      ghost var t := Snapshot();
      if l.tag != SortTag && l.sortId != 0 {
        if l.sortId !in sorts {
          return Fail(MissingSort(l.sortId));
        }
        lineSort := sorts[l.sortId];
        sorts := sorts[l.id := lineSort];
      }
      assert ResolveSort(t, l) == Success(Snapshot());
      StepCases(t, l);
      var gathered := GatherArgs(l);
      if gathered.Failure? {
        return Fail(gathered.error);
      }
      var args := gathered.value;
      var emission := Classify(l, args, sorts, lineSort);
      if emission.Throws? {
        return Fail(Untranslatable(l.id));
      }
      if emission.Assign? {
        AddWire(l.id, emission.expr);
        return Pass;
      }
      outcome := Record(l, args);
    }

    /** The loop of `parse` over the lines of a file, stopping at the first failure. */
    method Parse(lines: seq<Line>) returns (ok: bool)
      requires AllWellShaped(lines)
      modifies this
      ensures verilog == old(verilog)
      ensures ok <==> Run(old(Snapshot()), lines).Success?
      ensures ok ==> Snapshot() == Run(old(Snapshot()), lines).value
    {
      var i := 0;
      while i < |lines|
        invariant 0 <= i <= |lines|
        invariant AllWellShaped(lines[i..])
        invariant verilog == old(verilog)
        invariant Run(old(Snapshot()), lines) == Run(Snapshot(), lines[i..])
      {
        var rest := lines[i..];
        assert rest[0] == lines[i] && rest[1..] == lines[i + 1..];
        var outcome := ProcessLine(lines[i]);
        if outcome.Fail? {
          return false;
        }
        i := i + 1;
      }
      ok := true;
    }

    /** The port list entries of the ids in order; stops at an id without a sort or with
        an array sort. */
    method AppendPorts(dir: string, order: seq<int>) returns (ok: bool)
      modifies this`verilog
      ensures ok <==> PortRows(dir, Snapshot(), order).Success?
      ensures ok ==> verilog == old(verilog) + PortRows(dir, Snapshot(), order).value
    {
      ghost var base := verilog;
      var i := 0;
      while i < |order|
        invariant 0 <= i <= |order|
        invariant PortRows(dir, Snapshot(), order[..i]).Success?
        invariant verilog == base + PortRows(dir, Snapshot(), order[..i]).value
      {
        var k := order[i];
        if k !in sorts || sorts[k].k != BitVecKind {
          assert !PortOk(Snapshot(), order[i]);
          return false;
        }
        ghost var prev := PortRows(dir, Snapshot(), order[..i]).value;
        var row := ",\n\t" + dir + " " + FullSelect(sorts[k].w1) + " " + Sym(symbols, k);
        verilog := verilog + row;
        assert order[..i + 1][..i] == order[..i];
        AppendTwice(base, prev, row);
        i := i + 1;
      }
      assert order[..i] == order;
      ok := true;
    }

    /** The register declarations of the states; stops at a state without a sort. */
    method AppendStates() returns (ok: bool)
      modifies this`verilog
      ensures ok <==> StateRows(Snapshot(), states).Success?
      ensures ok ==> verilog == old(verilog) + StateRows(Snapshot(), states).value
    {
      ghost var base := verilog;
      var i := 0;
      while i < |states|
        invariant 0 <= i <= |states|
        invariant StateRows(Snapshot(), states[..i]).Success?
        invariant verilog == base + StateRows(Snapshot(), states[..i]).value
      {
        var st := states[i];
        assert states[..i + 1][..i] == states[..i];
        if st !in sorts {
          return false;
        }
        ghost var prev := StateRows(Snapshot(), states[..i]).value;
        var s := sorts[st];
        var row;
        if s.k == ArrayKind {
          row := "\treg " + FullSelect(s.w2) + " " + Sym(symbols, st) + "[" + IntToString(Pow2(s.w1) - 1) + ":0]" + ";\n";
        } else {
          row := "\treg " + FullSelect(s.w1) + " " + Sym(symbols, st) + ";\n";
        }
        assert StateRow(Snapshot(), st) == Success(row);
        verilog := verilog + row;
        AppendTwice(base, prev, row);
        i := i + 1;
      }
      assert states[..i] == states;
      ok := true;
    }

    /** The declarations of the combinational wires; stops at a wire without a sort. */
    method AppendWires() returns (ok: bool)
      modifies this`verilog
      ensures ok <==> WireRows(Snapshot(), wires).Success?
      ensures ok ==> verilog == old(verilog) + WireRows(Snapshot(), wires).value
    {
      ghost var base := verilog;
      var i := 0;
      while i < |wires|
        invariant 0 <= i <= |wires|
        invariant WireRows(Snapshot(), wires[..i]).Success?
        invariant verilog == base + WireRows(Snapshot(), wires[..i]).value
      {
        var w := wires[i];
        assert wires[..i + 1][..i] == wires[..i];
        if w !in sorts {
          return false;
        }
        ghost var prev := WireRows(Snapshot(), wires[..i]).value;
        var s := sorts[w];
        var row;
        if s.k == ArrayKind {
          row := "\twire " + FullSelect(s.w2) + " " + Sym(symbols, w) + " " + FullSelect(Pow2(s.w1)) + ";\n";
        } else {
          row := "\twire " + FullSelect(s.w1) + " " + Sym(symbols, w) + ";\n";
        }
        assert WireRow(Snapshot(), w) == Success(row);
        verilog := verilog + row;
        AppendTwice(base, prev, row);
        i := i + 1;
      }
      assert wires[..i] == wires;
      ok := true;
    }

    /** The shadow memory declarations of the array writes. */
    method AppendShadows(order: seq<string>)
      requires forall i :: 0 <= i < |order| ==> order[i] in writes
      modifies this`verilog
      ensures verilog == old(verilog) + ShadowRows(writes, order)
    {
      ghost var base := verilog;
      var i := 0;
      while i < |order|
        invariant 0 <= i <= |order|
        invariant verilog == base + ShadowRows(writes, order[..i])
      {
        var name := order[i];
        var d := writes[name];
        ghost var prev := ShadowRows(writes, order[..i]);
        var row := ShadowRow(name, d);
        assert order[..i + 1][..i] == order[..i];
        assert ShadowRows(writes, order[..i + 1]) == prev + row;
        verilog := verilog + row;
        AppendTwice(base, prev, row);
        i := i + 1;
      }
      assert order[..i] == order;
    }

    /** The continuous assignments of the combinational wires and outputs. */
    method AppendAssigns(order: seq<string>)
      requires forall i :: 0 <= i < |order| ==> order[i] in wireAssigns
      modifies this`verilog
      ensures verilog == old(verilog) + AssignRows(wireAssigns, order)
    {
      ghost var base := verilog;
      var i := 0;
      while i < |order|
        invariant 0 <= i <= |order|
        invariant verilog == base + AssignRows(wireAssigns, order[..i])
      {
        var name := order[i];
        ghost var prev := AssignRows(wireAssigns, order[..i]);
        var row := "\tassign " + name + " = " + wireAssigns[name] + ";\n";
        verilog := verilog + row;
        assert order[..i + 1][..i] == order[..i];
        AppendTwice(base, prev, row);
        i := i + 1;
      }
      assert order[..i] == order;
    }

    /** The copy-then-overwrite rows of the array writes. */
    method AppendWriteRows(order: seq<string>)
      requires forall i :: 0 <= i < |order| ==> order[i] in writes
      modifies this`verilog
      ensures verilog == old(verilog) + WriteRows(writes, order)
    {
      ghost var base := verilog;
      var i := 0;
      while i < |order|
        invariant 0 <= i <= |order|
        invariant verilog == base + WriteRows(writes, order[..i])
      {
        var name := order[i];
        var d := writes[name];
        ghost var prev := WriteRows(writes, order[..i]);
        var copy := "\t\t" + name + " = " + d.arr + ";\n";
        var overwrite := "\t\t" + name + "[" + d.idx + "] = " + d.elm + ";\n";
        verilog := verilog + copy;
        verilog := verilog + overwrite;
        assert order[..i + 1][..i] == order[..i];
        assert WriteRow(name, d) == copy + overwrite;
        AppendTwice(base + prev, copy, overwrite);
        AppendTwice(base, prev, copy + overwrite);
        i := i + 1;
      }
      assert order[..i] == order;
    }

    /** Non-blocking assignments of the given values to their states. */
    method AppendUpdates(m: map<string, string>, order: seq<string>)
      requires forall i :: 0 <= i < |order| ==> order[i] in m
      modifies this`verilog
      ensures verilog == old(verilog) + UpdateRows(m, order)
    {
      ghost var base := verilog;
      var i := 0;
      while i < |order|
        invariant 0 <= i <= |order|
        invariant verilog == base + UpdateRows(m, order[..i])
      {
        var name := order[i];
        ghost var prev := UpdateRows(m, order[..i]);
        var row := "\t\t\t" + name + " <= " + m[name] + ";\n";
        verilog := verilog + row;
        assert order[..i + 1][..i] == order[..i];
        AppendTwice(base, prev, row);
        i := i + 1;
      }
      assert order[..i] == order;
    }

    /** One `assume` or `assert` row per condition. */
    method AppendChecks(keyword: string, cs: seq<string>)
      modifies this`verilog
      ensures verilog == old(verilog) + CheckRows(keyword, cs)
    {
      ghost var base := verilog;
      var i := 0;
      while i < |cs|
        invariant 0 <= i <= |cs|
        invariant verilog == base + CheckRows(keyword, cs[..i])
      {
        ghost var prev := CheckRows(keyword, cs[..i]);
        var row := "\t\t" + keyword + " (" + cs[i] + ");\n";
        verilog := verilog + row;
        assert cs[..i + 1][..i] == cs[..i];
        AppendTwice(base, prev, row);
        i := i + 1;
      }
      assert cs[..i] == cs;
    }

    /** The declarations of the write shadows under their heading. */
    method AppendShadowSection(o: Orders, ghost t: Tables)
      requires t == Snapshot() && ValidOrders(t, o)
      modifies this`verilog
      ensures verilog == old(verilog) + ShadowSection(t, o)
    {
      ghost var base := verilog;
      var head := "\n\t// array write assignment wires\n";
      verilog := verilog + head;
      AppendShadows(o.writes);
      AppendTwice(base, head, ShadowRows(writes, o.writes));
    }

    /** The continuous assignments under their heading. */
    method AppendAssignSection(o: Orders, ghost t: Tables)
      requires t == Snapshot() && ValidOrders(t, o)
      modifies this`verilog
      ensures verilog == old(verilog) + AssignSection(t, o)
    {
      ghost var base := verilog;
      var head := "\n\t// assignments\n";
      verilog := verilog + head;
      AppendAssigns(o.assigns);
      AppendTwice(base, head, AssignRows(wireAssigns, o.assigns));
    }

    /** The `always_comb` block of the array writes under its heading. */
    method AppendWriteSection(o: Orders, ghost t: Tables)
      requires t == Snapshot() && ValidOrders(t, o)
      modifies this`verilog
      ensures verilog == old(verilog) + WriteSection(t, o)
    {
      ghost var base := verilog;
      var head := "\n\t// array write assignments\n";
      var open := "\talways_comb begin\n";
      var close := "\tend\n\n";
      verilog := verilog + head;
      verilog := verilog + open;
      AppendTwice(base, head, open);
      ghost var rows := WriteRows(writes, o.writes);
      AppendWriteRows(o.writes);
      AppendTwice(base, head + open, rows);
      verilog := verilog + close;
      AppendTwice(base, head + open + rows, close);
    }

    /** The clocked block of resets and next-state updates under its heading. */
    method AppendClockSection(o: Orders, ghost t: Tables)
      requires t == Snapshot() && ValidOrders(t, o)
      modifies this`verilog
      ensures verilog == old(verilog) + ClockSection(t, o)
    {
      ghost var base := verilog;
      var head := "\n\t// state updates and reset\n\t";
      verilog := verilog + head;
      ghost var mid := verilog;
      ghost var block := "";
      assert verilog == mid + block;
      if |init| + |stateUpdates| > 0 {
        verilog := verilog + ClockedOpen;
        block := ClockedOpen;
        if |init| > 0 {
          verilog := verilog + ResetOpen;
          AppendTwice(mid, block, ResetOpen);
          block := block + ResetOpen;
          AppendUpdates(init, o.init);
          AppendTwice(mid, block, UpdateRows(init, o.init));
          block := block + UpdateRows(init, o.init);
          verilog := verilog + ResetElse;
          AppendTwice(mid, block, ResetElse);
          block := block + ResetElse;
        }
        if |stateUpdates| > 0 {
          if |init| == 0 {
            verilog := verilog + NoResetOpen;
            AppendTwice(mid, block, NoResetOpen);
            block := block + NoResetOpen;
          }
          AppendUpdates(stateUpdates, o.updates);
          AppendTwice(mid, block, UpdateRows(stateUpdates, o.updates));
          block := block + UpdateRows(stateUpdates, o.updates);
        }
        verilog := verilog + EndIf;
        AppendTwice(mid, block, EndIf);
        block := block + EndIf;
        verilog := verilog + EndBlock;
        AppendTwice(mid, block, EndBlock);
        block := block + EndBlock;
      }
      assert block == ClockedBlock(t, o);
      AppendTwice(base, head, block);
    }

    /** The `assume` or `assert` block of the given conditions, when there are any. */
    method AppendCheckBlock(head: string, keyword: string, cs: seq<string>, close: string)
      modifies this`verilog
      ensures |cs| == 0 ==> verilog == old(verilog)
      ensures |cs| > 0 ==> verilog == old(verilog) + (head + CheckRows(keyword, cs) + close)
    {
      if |cs| > 0 {
        ghost var base := verilog;
        verilog := verilog + head;
        AppendChecks(keyword, cs);
        AppendTwice(base, head, CheckRows(keyword, cs));
        verilog := verilog + close;
        AppendTwice(base, head + CheckRows(keyword, cs), close);
      }
    }

    /** The `assume` block of the constraints, when there are any. */
    method AppendAssumptions(cs: seq<string>)
      modifies this`verilog
      ensures verilog == old(verilog) + Assumptions(cs)
    {
      AppendCheckBlock("\n\t// assumptions\n\talways @* begin\n", "assume", cs, "\tend;\n");
      if |cs| == 0 {
        assert old(verilog) + "" == old(verilog);
      }
    }

    /** The `assert` block of the bad-state properties, when there are any. */
    method AppendAssertions(ps: seq<string>)
      modifies this`verilog
      ensures verilog == old(verilog) + Assertions(ps)
    {
      AppendCheckBlock("\n\t// assertions\n\talways @* begin\n", "assert", ps, "\tend\n");
      if |ps| == 0 {
        assert old(verilog) + "" == old(verilog);
      }
    }

    /** The first half of `gen_verilog`: the header, the port list and the declarations
        of states and wires, stopping at the first port with an array sort or id without
        a sort. */
    method AppendDeclarations(o: Orders) returns (ok: bool)
      modifies this`verilog
      ensures ok <==> Declarations(Snapshot(), o).Success?
      ensures ok ==> verilog == Declarations(Snapshot(), o).value
    {
      verilog := Header;
      ok := AppendPorts("input", o.inputs);
      if !ok {
        return;
      }
      ok := AppendPorts("output", o.outputs);
      if !ok {
        return;
      }
      verilog := verilog + "\n);\n\n\t// states\n";
      ok := AppendStates();
      if !ok {
        return;
      }
      verilog := verilog + "\n\t// wires\n";
      ok := AppendWires();
    }

    /** The second half of `gen_verilog`: shadows, assignments, writes, the clocked block,
        the assumptions, the assertions and the closing line. */
    method AppendBody(o: Orders, ghost t: Tables)
      requires t == Snapshot() && ValidOrders(t, o)
      modifies this`verilog
      ensures verilog == old(verilog) + ShadowSection(t, o) + AssignSection(t, o) + WriteSection(t, o)
        + ClockSection(t, o) + Assumptions(t.constraints) + Assertions(t.props) + "endmodule\n"
    {
      AppendShadowSection(o, t);
      AppendAssignSection(o, t);
      AppendWriteSection(o, t);
      AppendClockSection(o, t);
      AppendAssumptions(constraints);
      AppendAssertions(props);
      verilog := verilog + "endmodule\n";
    }

    /** `gen_verilog`: the module text, or false at the first port with an array sort or
        id without a sort. */
    method GenVerilog(o: Orders) returns (ok: bool)
      requires ValidOrders(Snapshot(), o)
      modifies this`verilog
      ensures ok <==> Generate(Snapshot(), o).Success?
      ensures ok ==> verilog == Generate(Snapshot(), o).value
    {
      ok := AppendDeclarations(o);
      if ok {
        AppendBody(o, Snapshot());
      }
    }
  }
}
