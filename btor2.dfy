/** The records delivered by the BTOR2 reader: operation tags, sorts and line records. */
module Btor2 {

  /** Every BTOR2 operation tag (`Btor2Tag`); the tag that declares a sort is `SortTag`. */
  datatype Tag =
    | Add | And | Bad | Concat | Const | Constraint | Constd | Consth | Dec | Eq | Fair
    | Iff | Implies | Inc | Init | Input | Ite | Justice | Mul | Nand | Neq | Neg | Next
    | Nor | Not | One | Ones | Or | Output | Read | Redand | Redor | Redxor | Rol | Ror
    | Saddo | Sdiv | Sdivo | Sext | Sgt | Sgte | Slice | Sll | Slt | Slte | SortTag | Smod
    | Smulo | Sra | Srem | Srl | Ssubo | State | Sub | Uaddo | Udiv | Uext | Ugt | Ugte
    | Ult | Ulte | Umulo | Urem | Usubo | Write | Xnor | Xor | Zero

  datatype SortKind = BitVecKind | ArrayKind

  /** A resolved sort: kind and widths. For an array, w1 is the index width and w2 the
      element width; a bit-vector sort carries its width in w1 and 0 in w2. */
  datatype Sort = Sort(k: SortKind, w1: nat, w2: nat)

  function BitVec(width: nat): (s: Sort)
    ensures s.k == BitVecKind && s.w1 == width
  {
    Sort(BitVecKind, width, 0)
  }

  function Array(indexWidth: nat, elementWidth: nat): (s: Sort)
    ensures s.k == ArrayKind && s.w1 == indexWidth && s.w2 == elementWidth
  {
    Sort(ArrayKind, indexWidth, elementWidth)
  }

  /** What a `sort` line declares: a width, or the ids of the index and element sorts. */
  datatype SortDecl = BitVecDecl(width: nat) | ArrayDecl(index: int, element: int)

  /** One parsed line: its id, tag, the id of the sort it refers to (0 for none), the sort
      it declares (read only on `sort` lines), the three argument slots of the reader's
      record, how many of them are argument ids, and the constant literal text. */
  datatype Line = Line(
    id: int,
    tag: Tag,
    sortId: int,
    decl: SortDecl,
    args: seq<int>,
    nargs: nat,
    constant: string)

  /** Argument slot i of a line; the reader's record holds zero in unused slots. */
  function Slot(l: Line, i: nat): int
  {
    if i < |l.args| then l.args[i] else 0
  }

  /** How many resolved arguments the translator reads, unchecked, for a tag. The reader
      guarantees these; the tags whose arity the translator itself checks need none. */
  function Needed(tag: Tag): nat
  {
    match tag
    case Slice | Sext | Uext | Inc | Dec | Constraint | Bad | Output => 1
    case Eq | Implies | Concat | Read | Init | Next => 2
    case Ite => 3
    case _ => 0
  }

  predicate WellShaped(l: Line)
  {
    l.nargs >= Needed(l.tag)
  }
}
