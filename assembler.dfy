/** The module text `gen_verilog` renders from the translation tables, section by section. */
module Assembler {
  import opened Wrappers
  import opened Text
  import opened Btor2
  import opened Driver

  /** Why generation stops: an array-sorted input or output, or an id without a sort
      (`sorts_.at` throwing). */
  datatype GenFailure = ArrayAtInterface | NoSort(id: int)

  /** The iteration orders of the unordered containers: the input and output id sets and
      the maps keyed by name. They are not determined by the tables. */
  datatype Orders = Orders(
    inputs: seq<int>,
    outputs: seq<int>,
    writes: seq<string>,
    assigns: seq<string>,
    init: seq<string>,
    updates: seq<string>)

  /** An order lists every element of a container exactly once. */
  predicate Enumerates<K>(order: seq<K>, keys: set<K>)
  {
    && (forall i :: 0 <= i < |order| ==> order[i] in keys)
    && (forall k :: k in keys ==> k in order)
    && (forall i, j :: 0 <= i < j < |order| ==> order[i] != order[j])
  }

  predicate ValidOrders(t: Tables, o: Orders)
  {
    && Enumerates(o.inputs, t.inputs)
    && Enumerates(o.outputs, t.outputs)
    && Enumerates(o.writes, t.writes.Keys)
    && Enumerates(o.assigns, t.wireAssigns.Keys)
    && Enumerates(o.init, t.init.Keys)
    && Enumerates(o.updates, t.updates.Keys)
  }

  /** The largest `size_t`. */
  const SizeMax: nat := 0xFFFF_FFFF_FFFF_FFFF

  /** `width - 1` on an unsigned 64-bit `size_t`: zero wraps around to the largest value. */
  function SizeDec(width: nat): (r: nat)
    ensures r <= SizeMax
    ensures 1 <= width <= SizeMax + 1 ==> r + 1 == width
    ensures width == 0 ==> r == SizeMax
  {
    (width + SizeMax) % (SizeMax + 1)
  }

  /** `get_full_select`: the bit range `[width-1:0]`, with `size_t` arithmetic. */
  function FullSelect(width: nat): string
  {
    "[" + NatToString(SizeDec(width)) + ":0]"
  }

  /** A name through `symbols_[id]`, which yields the empty name for an unbound id. */
  function Sym(symbols: map<int, string>, k: int): string
  {
    if k in symbols then symbols[k] else ""
  }

  predicate PortOk(t: Tables, k: int)
  {
    k in t.sorts && t.sorts[k].k == BitVecKind
  }

  function Port(dir: string, t: Tables, k: int): Result<string, GenFailure>
  {
    if k !in t.sorts then Failure(NoSort(k))
    else if t.sorts[k].k != BitVecKind then Failure(ArrayAtInterface)
    else Success(",\n\t" + dir + " " + FullSelect(t.sorts[k].w1) + " " + Sym(t.symbols, k))
  }

  /** The port list entries for the ids in order; fails exactly when one of them has no
      sort or an array sort. */
  function PortRows(dir: string, t: Tables, order: seq<int>): (r: Result<string, GenFailure>)
    ensures r.Success? <==> forall i :: 0 <= i < |order| ==> PortOk(t, order[i])
    ensures (exists i :: 0 <= i < |order| && order[i] in t.sorts && t.sorts[order[i]].k == ArrayKind) ==> r.Failure?
  {
    if order == [] then Success("")
    else
      var prefix := PortRows(dir, t, order[..|order| - 1]);
      var last := Port(dir, t, order[|order| - 1]);
      if prefix.Failure? then prefix
      else if last.Failure? then Failure(last.error)
      else Success(prefix.value + last.value)
  }

  /** A state register; an array state is a memory of 2^w1 words of w2 bits. */
  function StateRow(t: Tables, st: int): Result<string, GenFailure>
  {
    if st !in t.sorts then Failure(NoSort(st))
    else
      var s := t.sorts[st];
      if s.k == ArrayKind then
        Success("\treg " + FullSelect(s.w2) + " " + Sym(t.symbols, st) + "[" + IntToString(Pow2(s.w1) - 1) + ":0]" + ";\n")
      else
        Success("\treg " + FullSelect(s.w1) + " " + Sym(t.symbols, st) + ";\n")
  }

  /** A combinational wire; an array-valued wire is a memory of 2^w1 words of w2 bits. */
  function WireRow(t: Tables, w: int): Result<string, GenFailure>
  {
    if w !in t.sorts then Failure(NoSort(w))
    else
      var s := t.sorts[w];
      if s.k == ArrayKind then
        Success("\twire " + FullSelect(s.w2) + " " + Sym(t.symbols, w) + " " + FullSelect(Pow2(s.w1)) + ";\n")
      else
        Success("\twire " + FullSelect(s.w1) + " " + Sym(t.symbols, w) + ";\n")
  }

  function StateRows(t: Tables, ids: seq<int>): (r: Result<string, GenFailure>)
    ensures r.Success? <==> forall i :: 0 <= i < |ids| ==> ids[i] in t.sorts
  {
    if ids == [] then Success("")
    else
      var prefix := StateRows(t, ids[..|ids| - 1]);
      var last := StateRow(t, ids[|ids| - 1]);
      if prefix.Failure? then prefix
      else if last.Failure? then Failure(last.error)
      else Success(prefix.value + last.value)
  }

  function WireRows(t: Tables, ids: seq<int>): (r: Result<string, GenFailure>)
    ensures r.Success? <==> forall i :: 0 <= i < |ids| ==> ids[i] in t.sorts
  {
    if ids == [] then Success("")
    else
      var prefix := WireRows(t, ids[..|ids| - 1]);
      var last := WireRow(t, ids[|ids| - 1]);
      if prefix.Failure? then prefix
      else if last.Failure? then Failure(last.error)
      else Success(prefix.value + last.value)
  }

  /** The declaration of a write's shadow memory: 2^idxWidth words of elemWidth bits. */
  function ShadowRow(name: string, d: WriteDesc): string
  {
    "\tlogic [" + NatToString(SizeDec(d.elemWidth)) + ":0] " + name + " [" + IntToString(Pow2(d.idxWidth) - 1) + ":0];\n"
  }

  function ShadowRows(writes: map<string, WriteDesc>, order: seq<string>): string
    requires forall i :: 0 <= i < |order| ==> order[i] in writes
  {
    if order == [] then ""
    else ShadowRows(writes, order[..|order| - 1]) + ShadowRow(order[|order| - 1], writes[order[|order| - 1]])
  }

  function AssignRow(name: string, expr: string): string
  {
    "\tassign " + name + " = " + expr + ";\n"
  }

  function AssignRows(assigns: map<string, string>, order: seq<string>): string
    requires forall i :: 0 <= i < |order| ==> order[i] in assigns
  {
    if order == [] then ""
    else AssignRows(assigns, order[..|order| - 1]) + AssignRow(order[|order| - 1], assigns[order[|order| - 1]])
  }

  /** The shadow first takes the whole source array ... */
  function CopyRow(name: string, d: WriteDesc): string
  {
    "\t\t" + name + " = " + d.arr + ";\n"
  }

  /** ... and then the written element at the written index. */
  function OverwriteRow(name: string, d: WriteDesc): string
  {
    "\t\t" + name + "[" + d.idx + "] = " + d.elm + ";\n"
  }

  function WriteRow(name: string, d: WriteDesc): string
  {
    CopyRow(name, d) + OverwriteRow(name, d)
  }

  function WriteRows(writes: map<string, WriteDesc>, order: seq<string>): string
    requires forall i :: 0 <= i < |order| ==> order[i] in writes
  {
    if order == [] then ""
    else WriteRows(writes, order[..|order| - 1]) + WriteRow(order[|order| - 1], writes[order[|order| - 1]])
  }

  function UpdateRow(name: string, value: string): string
  {
    "\t\t\t" + name + " <= " + value + ";\n"
  }

  /** Non-blocking assignments of the given values to their states. */
  function UpdateRows(m: map<string, string>, order: seq<string>): string
    requires forall i :: 0 <= i < |order| ==> order[i] in m
  {
    if order == [] then ""
    else UpdateRows(m, order[..|order| - 1]) + UpdateRow(order[|order| - 1], m[order[|order| - 1]])
  }

  function CheckRow(keyword: string, c: string): string
  {
    "\t\t" + keyword + " (" + c + ");\n"
  }

  function CheckRows(keyword: string, cs: seq<string>): string
  {
    if cs == [] then "" else CheckRows(keyword, cs[..|cs| - 1]) + CheckRow(keyword, cs[|cs| - 1])
  }

  const ClockedOpen := "always @(posedge clk) begin\n"
  const ResetOpen := "\t\tif (rst) begin\n"
  const ResetElse := "\t\tend\n\t\telse begin\n"
  const NoResetOpen := "\t\t if (1) begin\n"
  const EndIf := "\t\tend\n"
  const EndBlock := "\tend\n"

  /** The clocked block, in the order its pieces are emitted: on reset every init value,
      otherwise every next value. */
  function ClockedBlock(t: Tables, o: Orders): string
    requires ValidOrders(t, o)
  {
    if |t.init| + |t.updates| == 0 then ""
    else
      var reset := if |t.init| > 0 then ClockedOpen + ResetOpen + UpdateRows(t.init, o.init) + ResetElse else ClockedOpen;
      var next :=
        if |t.updates| > 0 then (if |t.init| == 0 then reset + NoResetOpen else reset) + UpdateRows(t.updates, o.updates)
        else reset;
      next + EndIf + EndBlock
  }

  function Assumptions(cs: seq<string>): string
  {
    if |cs| > 0 then "\n\t// assumptions\n\talways @* begin\n" + CheckRows("assume", cs) + "\tend;\n" else ""
  }

  function Assertions(ps: seq<string>): string
  {
    if |ps| > 0 then "\n\t// assertions\n\talways @* begin\n" + CheckRows("assert", ps) + "\tend\n" else ""
  }

  const Header := "module top(input rst,\n\tinput clk"

  function ShadowSection(t: Tables, o: Orders): string
    requires ValidOrders(t, o)
  {
    "\n\t// array write assignment wires\n" + ShadowRows(t.writes, o.writes)
  }

  function AssignSection(t: Tables, o: Orders): string
    requires ValidOrders(t, o)
  {
    "\n\t// assignments\n" + AssignRows(t.wireAssigns, o.assigns)
  }

  function WriteSection(t: Tables, o: Orders): string
    requires ValidOrders(t, o)
  {
    "\n\t// array write assignments\n" + "\talways_comb begin\n" + WriteRows(t.writes, o.writes) + "\tend\n\n"
  }

  function ClockSection(t: Tables, o: Orders): string
    requires ValidOrders(t, o)
  {
    "\n\t// state updates and reset\n\t" + ClockedBlock(t, o)
  }

  /** The header, the port list and the declarations of states and wires, in the order
      they are emitted, or the first port with an array sort or id without a sort. */
  function Declarations(t: Tables, o: Orders): Result<string, GenFailure>
  {
    var ins := PortRows("input", t, o.inputs);
    if ins.Failure? then Failure(ins.error)
    else
      var outs := PortRows("output", t, o.outputs);
      if outs.Failure? then Failure(outs.error)
      else
        var states := StateRows(t, t.states);
        if states.Failure? then Failure(states.error)
        else
          var wires := WireRows(t, t.wires);
          if wires.Failure? then Failure(wires.error)
          else Success(Header + ins.value + outs.value + "\n);\n\n\t// states\n" + states.value + "\n\t// wires\n" + wires.value)
  }

  /** `gen_verilog`: the whole module, or the first failure in the port list or the
      declarations. After the declarations come the sections that cannot fail, in the
      order they are emitted. */
  function Generate(t: Tables, o: Orders): Result<string, GenFailure>
    requires ValidOrders(t, o)
  {
    var d := Declarations(t, o);
    if d.Failure? then Failure(d.error)
    else Success(d.value + ShadowSection(t, o) + AssignSection(t, o) + WriteSection(t, o) + ClockSection(t, o)
                 + Assumptions(t.constraints) + Assertions(t.props) + "endmodule\n")
  }

  // ---------------------------------------------------------------------------------
  // Properties of the generated text

  /** The n characters of s from position i, or the empty text outside s. */
  function Window(s: string, i: int, n: nat): string
  {
    if 0 <= i && i + n <= |s| then s[i..i + n] else ""
  }

  /** u occurs somewhere in s. */
  predicate Infix(u: string, s: string)
  {
    exists i :: 0 <= i <= |s| - |u| && Window(s, i, |u|) == u
  }

  lemma InfixSelf(u: string)
    ensures Infix(u, u)
  {
    assert Window(u, 0, |u|) == u;
  }

  lemma InfixConcat(u: string, a: string, b: string)
    ensures Infix(u, a) ==> Infix(u, a + b)
    ensures Infix(u, b) ==> Infix(u, a + b)
  {
    if Infix(u, a) {
      var i :| 0 <= i <= |a| - |u| && Window(a, i, |u|) == u;
      assert Window(a + b, i, |u|) == Window(a, i, |u|);
    }
    if Infix(u, b) {
      var i :| 0 <= i <= |b| - |u| && Window(b, i, |u|) == u;
      assert Window(a + b, |a| + i, |u|) == Window(b, i, |u|);
    }
  }

  /** Every check passed in is emitted as its own row. */
  lemma {:induction false} CheckRowsContain(keyword: string, cs: seq<string>, j: int)
    requires 0 <= j < |cs|
    ensures Infix(CheckRow(keyword, cs[j]), CheckRows(keyword, cs))
  {
    var front := cs[..|cs| - 1];
    if j == |cs| - 1 {
      InfixSelf(CheckRow(keyword, cs[j]));
    } else {
      assert front[j] == cs[j];
      CheckRowsContain(keyword, front, j);
    }
    InfixConcat(CheckRow(keyword, cs[j]), CheckRows(keyword, front), CheckRow(keyword, cs[|cs| - 1]));
  }

  /** Every entry of the map is emitted as a non-blocking assignment. */
  lemma {:induction false} UpdateRowsContain(m: map<string, string>, order: seq<string>, j: int)
    requires forall i :: 0 <= i < |order| ==> order[i] in m
    requires 0 <= j < |order|
    ensures Infix(UpdateRow(order[j], m[order[j]]), UpdateRows(m, order))
  {
    var front := order[..|order| - 1];
    var last := UpdateRow(order[|order| - 1], m[order[|order| - 1]]);
    if j == |order| - 1 {
      InfixSelf(last);
    } else {
      assert front[j] == order[j];
      UpdateRowsContain(m, front, j);
    }
    InfixConcat(UpdateRow(order[j], m[order[j]]), UpdateRows(m, front), last);
  }

  lemma {:induction false} AssignRowsContain(m: map<string, string>, order: seq<string>, j: int)
    requires forall i :: 0 <= i < |order| ==> order[i] in m
    requires 0 <= j < |order|
    ensures Infix(AssignRow(order[j], m[order[j]]), AssignRows(m, order))
  {
    var front := order[..|order| - 1];
    var last := AssignRow(order[|order| - 1], m[order[|order| - 1]]);
    if j == |order| - 1 {
      InfixSelf(last);
    } else {
      assert front[j] == order[j];
      AssignRowsContain(m, front, j);
    }
    InfixConcat(AssignRow(order[j], m[order[j]]), AssignRows(m, front), last);
  }

  lemma {:induction false} WriteRowsContain(m: map<string, WriteDesc>, order: seq<string>, j: int)
    requires forall i :: 0 <= i < |order| ==> order[i] in m
    requires 0 <= j < |order|
    ensures Infix(WriteRow(order[j], m[order[j]]), WriteRows(m, order))
  {
    var front := order[..|order| - 1];
    var last := WriteRow(order[|order| - 1], m[order[|order| - 1]]);
    if j == |order| - 1 {
      InfixSelf(last);
    } else {
      assert front[j] == order[j];
      WriteRowsContain(m, front, j);
    }
    InfixConcat(WriteRow(order[j], m[order[j]]), WriteRows(m, front), last);
  }

  lemma {:induction false} StateRowsContain(t: Tables, ids: seq<int>, j: int)
    requires StateRows(t, ids).Success?
    requires 0 <= j < |ids|
    ensures StateRow(t, ids[j]).Success? && Infix(StateRow(t, ids[j]).value, StateRows(t, ids).value)
  {
    var front := ids[..|ids| - 1];
    var last := StateRow(t, ids[|ids| - 1]).value;
    if j == |ids| - 1 {
      InfixSelf(last);
    } else {
      assert front[j] == ids[j];
      StateRowsContain(t, front, j);
    }
    InfixConcat(StateRow(t, ids[j]).value, StateRows(t, front).value, last);
  }

  lemma {:induction false} WireRowsContain(t: Tables, ids: seq<int>, j: int)
    requires WireRows(t, ids).Success?
    requires 0 <= j < |ids|
    ensures WireRow(t, ids[j]).Success? && Infix(WireRow(t, ids[j]).value, WireRows(t, ids).value)
  {
    var front := ids[..|ids| - 1];
    var last := WireRow(t, ids[|ids| - 1]).value;
    if j == |ids| - 1 {
      InfixSelf(last);
    } else {
      assert front[j] == ids[j];
      WireRowsContain(t, front, j);
    }
    InfixConcat(WireRow(t, ids[j]).value, WireRows(t, front).value, last);
  }

  /** The port list of an enumerated set of ports succeeds exactly when every port in the
      set is a bit-vector. */
  lemma PortsOkIff(dir: string, t: Tables, order: seq<int>, keys: set<int>)
    requires Enumerates(order, keys)
    ensures PortRows(dir, t, order).Success? <==> forall k :: k in keys ==> PortOk(t, k)
  {
    if forall k :: k in keys ==> PortOk(t, k) {
      assert forall i :: 0 <= i < |order| ==> PortOk(t, order[i]);
    } else {
      var k :| k in keys && !PortOk(t, k);
      var i :| 0 <= i < |order| && order[i] == k;
    }
  }

  /** Whether generation succeeds depends only on the sorts: every port is a bit-vector
      and every state and wire has a sort. */
  lemma GenerateSucceedsIff(t: Tables, o: Orders)
    requires ValidOrders(t, o)
    ensures Generate(t, o).Success? <==>
      && (forall k :: k in t.inputs ==> PortOk(t, k))
      && (forall k :: k in t.outputs ==> PortOk(t, k))
      && (forall i :: 0 <= i < |t.states| ==> t.states[i] in t.sorts)
      && (forall i :: 0 <= i < |t.wires| ==> t.wires[i] in t.sorts)
  {
    PortsOkIff("input", t, o.inputs, t.inputs);
    PortsOkIff("output", t, o.outputs, t.outputs);
  }

  /** An array-sorted input or output makes generation fail. */
  lemma ArrayAtInterfaceFails(t: Tables, o: Orders, k: int)
    requires ValidOrders(t, o)
    requires k in t.inputs || k in t.outputs
    requires k in t.sorts && t.sorts[k].k == ArrayKind
    ensures Generate(t, o).Failure?
  {
    GenerateSucceedsIff(t, o);
  }

  /** Text inside one of the sections after the declarations is inside the module. */
  lemma SectionsInModule(u: string, t: Tables, o: Orders)
    requires ValidOrders(t, o)
    requires Generate(t, o).Success?
    requires || Infix(u, AssignSection(t, o)) || Infix(u, WriteSection(t, o)) || Infix(u, ClockSection(t, o))
             || Infix(u, Assumptions(t.constraints)) || Infix(u, Assertions(t.props))
    ensures Infix(u, Generate(t, o).value)
  {
    var p1 := Declarations(t, o).value + ShadowSection(t, o);
    var p2 := p1 + AssignSection(t, o);
    InfixConcat(u, p1, AssignSection(t, o));
    var p3 := p2 + WriteSection(t, o);
    InfixConcat(u, p2, WriteSection(t, o));
    var p4 := p3 + ClockSection(t, o);
    InfixConcat(u, p3, ClockSection(t, o));
    var p5 := p4 + Assumptions(t.constraints);
    InfixConcat(u, p4, Assumptions(t.constraints));
    var p6 := p5 + Assertions(t.props);
    InfixConcat(u, p5, Assertions(t.props));
    InfixConcat(u, p6, "endmodule\n");
    assert Generate(t, o).value == p6 + "endmodule\n";
  }

  /** Every state is declared as a register in the generated module. */
  lemma StatesDeclared(t: Tables, o: Orders, j: int)
    requires ValidOrders(t, o)
    requires Generate(t, o).Success?
    requires 0 <= j < |t.states|
    ensures StateRow(t, t.states[j]).Success?
    ensures Infix(StateRow(t, t.states[j]).value, Generate(t, o).value)
  {
    var ins := PortRows("input", t, o.inputs).value;
    var outs := PortRows("output", t, o.outputs).value;
    var states := StateRows(t, t.states).value;
    var wires := WireRows(t, t.wires).value;
    var u := StateRow(t, t.states[j]).value;
    StateRowsContain(t, t.states, j);
    var p := Header + ins + outs + "\n);\n\n\t// states\n";
    InfixConcat(u, p, states);
    InfixConcat(u, p + states, "\n\t// wires\n");
    InfixConcat(u, p + states + "\n\t// wires\n", wires);
    DeclarationsInModule(u, t, o);
  }

  /** Every wire is declared in the generated module. */
  lemma WiresDeclared(t: Tables, o: Orders, j: int)
    requires ValidOrders(t, o)
    requires Generate(t, o).Success?
    requires 0 <= j < |t.wires|
    ensures WireRow(t, t.wires[j]).Success?
    ensures Infix(WireRow(t, t.wires[j]).value, Generate(t, o).value)
  {
    var ins := PortRows("input", t, o.inputs).value;
    var outs := PortRows("output", t, o.outputs).value;
    var states := StateRows(t, t.states).value;
    var wires := WireRows(t, t.wires).value;
    var u := WireRow(t, t.wires[j]).value;
    WireRowsContain(t, t.wires, j);
    InfixConcat(u, Header + ins + outs + "\n);\n\n\t// states\n" + states + "\n\t// wires\n", wires);
    DeclarationsInModule(u, t, o);
  }

  /** Text inside the declarations is inside the module. */
  lemma DeclarationsInModule(u: string, t: Tables, o: Orders)
    requires ValidOrders(t, o)
    requires Generate(t, o).Success?
    requires Infix(u, Declarations(t, o).value)
    ensures Infix(u, Generate(t, o).value)
  {
    var p1 := Declarations(t, o).value + ShadowSection(t, o);
    InfixConcat(u, Declarations(t, o).value, ShadowSection(t, o));
    var p2 := p1 + AssignSection(t, o);
    InfixConcat(u, p1, AssignSection(t, o));
    var p3 := p2 + WriteSection(t, o);
    InfixConcat(u, p2, WriteSection(t, o));
    var p4 := p3 + ClockSection(t, o);
    InfixConcat(u, p3, ClockSection(t, o));
    var p5 := p4 + Assumptions(t.constraints);
    InfixConcat(u, p4, Assumptions(t.constraints));
    var p6 := p5 + Assertions(t.props);
    InfixConcat(u, p5, Assertions(t.props));
    InfixConcat(u, p6, "endmodule\n");
    assert Generate(t, o).value == p6 + "endmodule\n";
  }

  /** Every bad-state property is asserted in the generated module. */
  lemma PropertiesAsserted(t: Tables, o: Orders, j: int)
    requires ValidOrders(t, o)
    requires Generate(t, o).Success?
    requires 0 <= j < |t.props|
    ensures Infix(CheckRow("assert", t.props[j]), Generate(t, o).value)
  {
    var u := CheckRow("assert", t.props[j]);
    CheckRowsContain("assert", t.props, j);
    var a := "\n\t// assertions\n\talways @* begin\n";
    InfixConcat(u, a, CheckRows("assert", t.props));
    InfixConcat(u, a + CheckRows("assert", t.props), "\tend\n");
    SectionsInModule(u, t, o);
  }

  /** Every constraint is assumed in the generated module. */
  lemma ConstraintsAssumed(t: Tables, o: Orders, j: int)
    requires ValidOrders(t, o)
    requires Generate(t, o).Success?
    requires 0 <= j < |t.constraints|
    ensures Infix(CheckRow("assume", t.constraints[j]), Generate(t, o).value)
  {
    var u := CheckRow("assume", t.constraints[j]);
    CheckRowsContain("assume", t.constraints, j);
    var a := "\n\t// assumptions\n\talways @* begin\n";
    InfixConcat(u, a, CheckRows("assume", t.constraints));
    InfixConcat(u, a + CheckRows("assume", t.constraints), "\tend;\n");
    SectionsInModule(u, t, o);
  }

  /** A key the order enumerates sits at some position of it. */
  lemma PositionOf<K>(order: seq<K>, keys: set<K>, k: K) returns (j: int)
    requires Enumerates(order, keys)
    requires k in keys
    ensures 0 <= j < |order| && order[j] == k
  {
    j :| 0 <= j < |order| && order[j] == k;
  }

  /** Every combinational wire is driven by its `assign` row. */
  lemma AssignmentsEmitted(t: Tables, o: Orders, name: string)
    requires ValidOrders(t, o)
    requires Generate(t, o).Success?
    requires name in t.wireAssigns
    ensures Infix(AssignRow(name, t.wireAssigns[name]), Generate(t, o).value)
  {
    var u := AssignRow(name, t.wireAssigns[name]);
    var j := PositionOf(o.assigns, t.wireAssigns.Keys, name);
    AssignRowsContain(t.wireAssigns, o.assigns, j);
    InfixConcat(u, "\n\t// assignments\n", AssignRows(t.wireAssigns, o.assigns));
    SectionsInModule(u, t, o);
  }

  /** Every array write first copies the source array into its shadow and then
      overwrites the written element. */
  lemma WritesCopyThenOverwrite(t: Tables, o: Orders, name: string)
    requires ValidOrders(t, o)
    requires Generate(t, o).Success?
    requires name in t.writes
    ensures Infix(CopyRow(name, t.writes[name]) + OverwriteRow(name, t.writes[name]), Generate(t, o).value)
  {
    var u := WriteRow(name, t.writes[name]);
    var j := PositionOf(o.writes, t.writes.Keys, name);
    WriteRowsContain(t.writes, o.writes, j);
    var a := "\n\t// array write assignments\n" + "\talways_comb begin\n";
    InfixConcat(u, a, WriteRows(t.writes, o.writes));
    InfixConcat(u, a + WriteRows(t.writes, o.writes), "\tend\n\n");
    SectionsInModule(u, t, o);
  }

  /** An empty container is enumerated by the empty order only. */
  lemma EmptyOrder<K>(order: seq<K>, keys: set<K>)
    requires Enumerates(order, keys)
    ensures |keys| == 0 <==> order == []
  {
    if order != [] {
      assert order[0] in keys;
    }
  }

  /** The clocked block is present exactly when some state has an init or a next value.
      With init values, they are assigned under reset and the next values in the else
      branch; without, the next values are assigned unconditionally. */
  lemma ClockedBlockShape(t: Tables, o: Orders)
    requires ValidOrders(t, o)
    ensures ClockedBlock(t, o) == "" <==> |t.init| == 0 && |t.updates| == 0
    ensures |t.init| > 0 ==>
      ClockedBlock(t, o) ==
        ClockedOpen + ResetOpen + UpdateRows(t.init, o.init) + ResetElse + UpdateRows(t.updates, o.updates) + EndIf + EndBlock
    ensures |t.init| == 0 && |t.updates| > 0 ==>
      ClockedBlock(t, o) == ClockedOpen + NoResetOpen + UpdateRows(t.updates, o.updates) + EndIf + EndBlock
  {
    EmptyOrder(o.updates, t.updates.Keys);
    if |t.init| > 0 && |t.updates| == 0 {
      var reset := ClockedOpen + ResetOpen + UpdateRows(t.init, o.init) + ResetElse;
      assert UpdateRows(t.updates, o.updates) == "";
      assert reset + UpdateRows(t.updates, o.updates) == reset;
    }
  }

  /** Every entry of an init or next map gets its non-blocking assignment. */
  lemma EveryEntryUpdated(m: map<string, string>, order: seq<string>, k: string)
    requires Enumerates(order, m.Keys)
    requires k in m
    ensures Infix(UpdateRow(k, m[k]), UpdateRows(m, order))
  {
    var j := PositionOf(order, m.Keys, k);
    UpdateRowsContain(m, order, j);
  }

  /** An array state is declared as a memory whose index range is the one
      `get_full_select` gives for 2^w1 entries. */
  lemma StateMemoryRange(t: Tables, id: int)
    requires id in t.sorts && t.sorts[id].k == ArrayKind
    requires Pow2(t.sorts[id].w1) <= SizeMax + 1
    ensures StateRow(t, id) ==
      Success("\treg " + FullSelect(t.sorts[id].w2) + " " + Sym(t.symbols, id) + FullSelect(Pow2(t.sorts[id].w1)) + ";\n")
  {
    var s := t.sorts[id];
    var a := "\treg " + FullSelect(s.w2) + " " + Sym(t.symbols, id);
    var hi := IntToString(Pow2(s.w1) - 1);
    assert FullSelect(Pow2(s.w1)) == "[" + hi + ":0]";
    assert a + "[" + hi + ":0]" == a + ("[" + hi + ":0]");
  }

  /** A write's shadow memory is declared with the ranges `get_full_select` gives for
      its element width and for 2^idxWidth entries. */
  lemma ShadowMemoryRange(name: string, d: WriteDesc)
    requires Pow2(d.idxWidth) <= SizeMax + 1
    ensures ShadowRow(name, d) ==
      "\tlogic " + FullSelect(d.elemWidth) + " " + name + " " + FullSelect(Pow2(d.idxWidth)) + ";\n"
  {
    var hi := IntToString(Pow2(d.idxWidth) - 1);
    var x := NatToString(SizeDec(d.elemWidth));
    assert FullSelect(Pow2(d.idxWidth)) == "[" + hi + ":0]";
    assert "\tlogic [" == "\tlogic " + "[";
    assert ":0] " == ":0]" + " ";
    assert " [" == " " + "[";
    calc {
      ShadowRow(name, d);
      "\tlogic [" + x + ":0] " + name + " [" + hi + ":0];\n";
      "\tlogic " + ("[" + x + ":0]") + " " + name + " " + ("[" + hi + ":0]") + ";\n";
    }
  }

  /** From a file to the module text: the negation of every bad-state line's operand,
      as resolved when the line was read, is asserted in the generated module. */
  lemma BadLineAsserted(lines: seq<Line>, i: int, o: Orders)
    requires AllWellShaped(lines) && 0 <= i < |lines| && lines[i].tag == Bad
    requires Run(Empty(), lines).Success?
    requires ValidOrders(Run(Empty(), lines).value, o)
    requires Generate(Run(Empty(), lines).value, o).Success?
    ensures AllWellShaped(lines[..i])
    ensures Run(Empty(), lines[..i]).Success?
    ensures
      var symbols := Run(Empty(), lines[..i]).value.symbols;
      && Resolve(symbols, Slot(lines[i], 0)).Success?
      && Infix(CheckRow("assert", "~" + Resolve(symbols, Slot(lines[i], 0)).value),
               Generate(Run(Empty(), lines).value, o).value)
  {
    var j := RunRecordsBad(Empty(), lines, i);
    PropertiesAsserted(Run(Empty(), lines).value, o, j);
  }
}
