/** The three operator tables of the translator: plain, signed and negated operators. */
module Operators {
  import opened Wrappers
  import opened Btor2

  /** `bvopmap`: unary or binary operators emitted as they are. */
  function BvOp(tag: Tag): Option<string>
  {
    match tag
    case Add => Some("+")
    case And => Some("&")
    case Iff => Some("==")
    case Mul => Some("*")
    case Neq => Some("!=")
    case Neg => Some("-")
    case Not => Some("~")
    case Or => Some("|")
    case Redand => Some("&")
    case Redor => Some("|")
    case Redxor => Some("^")
    case Sll => Some("<<")
    case Sra => Some(">>>")
    case Srl => Some(">>")
    case Sub => Some("-")
    case Udiv => Some("/")
    case Ugt => Some(">")
    case Ugte => Some(">=")
    case Ult => Some("<")
    case Ulte => Some("<=")
    case Urem => Some("%")
    case Xor => Some("^")
    case _ => None
  }

  /** `signed_bvopmap`: binary operators applied to operands reinterpreted as signed. */
  function SignedBvOp(tag: Tag): Option<string>
  {
    match tag
    case Sdiv => Some("/")
    case Sgt => Some(">")
    case Sgte => Some(">=")
    case Slt => Some("<")
    case Slte => Some("<=")
    case Srem => Some("%")
    case _ => None
  }

  /** `neg_bvopmap`: the positive operator of nand, nor and xnor; the emitted expression
      is its complement. */
  function NegBvOp(tag: Tag): Option<string>
  {
    match tag
    case Nand => Some("&")
    case Nor => Some("|")
    case Xnor => Some("^")
    case _ => None
  }

  /** The unsigned counterpart of a signed tag. */
  function UnsignedOf(tag: Tag): (u: Tag)
    requires SignedBvOp(tag).Some?
    ensures BvOp(u).Some?
  {
    if tag == Sdiv then Udiv
    else if tag == Sgt then Ugt
    else if tag == Sgte then Ugte
    else if tag == Slt then Ult
    else if tag == Slte then Ulte
    else Urem
  }

  /** The positive tag whose complement a negated tag denotes. */
  function PositiveOf(tag: Tag): (p: Tag)
    requires NegBvOp(tag).Some?
    ensures BvOp(p).Some?
  {
    if tag == Nand then And
    else if tag == Nor then Or
    else Xor
  }

  /** A signed operator is written with the same operator text as its unsigned
      counterpart; only the operands' interpretation differs. */
  lemma SignedSharesUnsignedText(tag: Tag)
    requires SignedBvOp(tag).Some?
    ensures SignedBvOp(tag) == BvOp(UnsignedOf(tag))
  {
  }

  /** The negated table stores the operator of the positive tag. */
  lemma NegatedStoresPositiveText(tag: Tag)
    requires NegBvOp(tag).Some?
    ensures NegBvOp(tag) == BvOp(PositiveOf(tag))
  {
  }

  /** No tag is in two tables, so the lookup order of the classifier never matters
      between them. */
  lemma TablesDisjoint(tag: Tag)
    ensures !(BvOp(tag).Some? && SignedBvOp(tag).Some?)
    ensures !(BvOp(tag).Some? && NegBvOp(tag).Some?)
    ensures !(SignedBvOp(tag).Some? && NegBvOp(tag).Some?)
  {
  }
}
