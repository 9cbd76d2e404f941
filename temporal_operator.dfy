/**
 * `DefaultTemporalOperator`, an immutable filter capability: a named operator
 * over a non-empty list of temporal operands, whose equality and hash code depend
 * on the operands only.
 */
module TemporalOperator {
  import opened JavaLang

  /** The message of the constructor's exception. */
  const EMPTY_OPERANDS: string := "Operands list can not be null or empty"

  /** A `TemporalOperand`; equal operands are equal values. */
  datatype TemporalOperand = TemporalOperand(name: string)

  /**
   * A temporal operator: its runtime class (`DefaultTemporalOperator` or a
   * subclass), the name given to the `DefaultOperator` super-constructor, and the
   * operand list, whose entries may be `null`.
   */
  datatype TemporalOperator = TemporalOperator(runtimeClass: string, name: string,
                                               operands: seq<Option<TemporalOperand>>)

  /** The argument of `equals`: `null`, a temporal operator, or an object of an unrelated class. */
  datatype Object = NullObject | OperatorObject(op: TemporalOperator) | UnrelatedObject

  /** An operator as the constructor leaves it: with at least one operand. */
  predicate Valid(op: TemporalOperator) {
    |op.operands| > 0
  }

  /**
   * The constructor: rejects a `null` or empty operand array, and otherwise keeps
   * a copy of its contents in the same order (the array is cloned, so the operator
   * holds the array's contents at construction time, whatever the caller does to
   * the array later).
   */
  function NewTemporalOperator(runtimeClass: string, name: string,
                               operands: Option<seq<Option<TemporalOperand>>>): (r: Result<TemporalOperator>)
    ensures r.Thrown? <==> operands.None? || |operands.value| == 0
    ensures r.Thrown? ==> r.exception == IllegalArgumentException(EMPTY_OPERANDS)
    ensures r.Ok? ==> Valid(r.value) && r.value.operands == operands.value &&
                      r.value.name == name && r.value.runtimeClass == runtimeClass
  {
    if operands.None? || |operands.value| == 0 then Thrown(IllegalArgumentException(EMPTY_OPERANDS))
    else Ok(TemporalOperator(runtimeClass, name, operands.value))
  }

  /** `getTemporalOperands()`: the stored operands, never empty for a constructed operator. */
  function GetTemporalOperands(op: TemporalOperator): (r: seq<Option<TemporalOperand>>)
    ensures Valid(op) ==> |r| > 0
    ensures r == op.operands
  {
    op.operands
  }

  /**
   * Constructing from an array and then changing the array leaves the operator as it
   * was built. The constructor's clone is modelled by `operands` being a sequence (a
   * value), not by this method: it shows the consequence of that choice, and would
   * hold as well for a model that did no copying, since `a[..]` is already a value.
   */
  method ConstructThenChangeArray(runtimeClass: string, name: string, a: array<Option<TemporalOperand>>,
                                  v: Option<TemporalOperand>)
    returns (r: Result<TemporalOperator>)
    requires a.Length > 0
    modifies a
    ensures r.Ok? && r.value.operands == old(a[..]) && a[0] == v
  {
    r := NewTemporalOperator(runtimeClass, name, Some(a[..]));
    a[0] := v;
  }

  /**
   * `equals(obj)`: false for `null` and for an object of another runtime class;
   * otherwise the operand lists are compared (the name is not).
   */
  predicate Equals(self: TemporalOperator, obj: Object) {
    match obj
    case NullObject => false
    case UnrelatedObject => false
    case OperatorObject(other) => self.runtimeClass == other.runtimeClass && self.operands == other.operands
  }

  /** `equals` is an equivalence on operators of one runtime class, and ignores their names. */
  lemma EqualsIsEquivalence(a: TemporalOperator, b: TemporalOperator, c: TemporalOperator)
    ensures Equals(a, OperatorObject(a))
    ensures Equals(a, OperatorObject(b)) ==> Equals(b, OperatorObject(a))
    ensures Equals(a, OperatorObject(b)) && Equals(b, OperatorObject(c)) ==> Equals(a, OperatorObject(c))
    ensures !Equals(a, NullObject) && !Equals(a, UnrelatedObject)
  {
  }

  /** Two operators built with different names from the same operands are equal. */
  lemma EqualsIgnoresName(runtimeClass: string, n1: string, n2: string, operands: seq<Option<TemporalOperand>>,
                          operandHash: TemporalOperand -> int)
    requires |operands| > 0
    ensures var a := NewTemporalOperator(runtimeClass, n1, Some(operands));
      var b := NewTemporalOperator(runtimeClass, n2, Some(operands));
      a.Ok? && b.Ok? && Equals(a.value, OperatorObject(b.value)) && HashCode(a.value, operandHash) == HashCode(b.value, operandHash)
  {
  }

  /** The `hashCode` of an operand or `null` (0), as an `int`. */
  function ElementHash(e: Option<TemporalOperand>, operandHash: TemporalOperand -> int): (h: int)
    ensures IsInt(h)
  {
    if e.None? then 0 else Wrap(operandHash(e.value))
  }

  /** `List.hashCode()`: start at 1, then `31 * h + hash(e)` for each element, in `int` arithmetic. */
  function ListHash(s: seq<Option<TemporalOperand>>, operandHash: TemporalOperand -> int): (h: int)
    ensures IsInt(h)
  {
    if |s| == 0 then 1
    else Wrap(31 * ListHash(s[..|s| - 1], operandHash) + ElementHash(s[|s| - 1], operandHash))
  }

  /** The same polynomial over unbounded integers. */
  function ExactListHash(s: seq<Option<TemporalOperand>>, operandHash: TemporalOperand -> int): int {
    if |s| == 0 then 1
    else 31 * ExactListHash(s[..|s| - 1], operandHash) + ElementHash(s[|s| - 1], operandHash)
  }

  /** Wrapping at every step gives the exact polynomial hash reduced to an `int`. */
  lemma {:induction false} ListHashIsWrappedPolynomial(s: seq<Option<TemporalOperand>>, operandHash: TemporalOperand -> int)
    ensures ListHash(s, operandHash) == Wrap(ExactListHash(s, operandHash))
  {
    if |s| == 0 {
      WrapOfInt(1);
    } else {
      var init := s[..|s| - 1];
      var e := ElementHash(s[|s| - 1], operandHash);
      var exact := ExactListHash(init, operandHash);
      ListHashIsWrappedPolynomial(init, operandHash);
      WrapMul(exact, 31);
      WrapCongruentSum(31 * Wrap(exact), 31 * exact, e);
    }
  }

  /** `hashCode()`: `13 * 7 + operands.hashCode()` in `int` arithmetic; the name plays no part. */
  function HashCode(op: TemporalOperator, operandHash: TemporalOperand -> int): (h: int)
    ensures IsInt(h)
  {
    Wrap(13 * 7 + ListHash(op.operands, operandHash))
  }

  /** The hash code is `91 + ` the exact polynomial hash of the operands, reduced to an `int`. */
  lemma HashCodeIsWrappedPolynomial(op: TemporalOperator, operandHash: TemporalOperand -> int)
    ensures HashCode(op, operandHash) == Wrap(13 * 7 + ExactListHash(op.operands, operandHash))
  {
    var h := ListHash(op.operands, operandHash);
    ListHashIsWrappedPolynomial(op.operands, operandHash);
    WrapOfInt(h);
    WrapCongruentSum(h, ExactListHash(op.operands, operandHash), 13 * 7);
  }

  /** Equal operators have equal hash codes, whatever the operands' own hash codes are. */
  lemma EqualOperatorsHashEqually(a: TemporalOperator, b: TemporalOperator, operandHash: TemporalOperand -> int)
    requires Equals(a, OperatorObject(b))
    ensures HashCode(a, operandHash) == HashCode(b, operandHash)
  {
  }
}
