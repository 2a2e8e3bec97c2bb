/** The error-code enumeration `ErrorEnum` and its integer values. */
module Enums {
  import opened Wrappers

  /** The members of `ErrorEnum`; `UnknownError` is kept last on purpose. */
  datatype ErrorEnum =
    | Ok
    | Unauthenticated
    | ConversationClosed
    | SchemaError
    | Unimplemented
    | ConversationNotInitialized
    | AuthenticationTimeout
    | AuthFailUserInactive
    | AuthFailInvalidToken
    | InactivenessTimeout
    | UnknownError

  /** The members in declaration order. */
  const Members: seq<ErrorEnum> := [
    Ok, Unauthenticated, ConversationClosed, SchemaError, Unimplemented,
    ConversationNotInitialized, AuthenticationTimeout, AuthFailUserInactive,
    AuthFailInvalidToken, InactivenessTimeout, UnknownError
  ]

  /** The declaration lists every member exactly once. */
  lemma MembersListEachOnce(e: ErrorEnum)
    ensures e in Members
    ensures forall i, j :: 0 <= i < j < |Members| ==> Members[i] != Members[j]
  {
  }

  /** Position of a member in the declaration. */
  function Index(e: ErrorEnum): (i: nat)
    ensures i < |Members| && Members[i] == e
  {
    match e
    case Ok => 0
    case Unauthenticated => 1
    case ConversationClosed => 2
    case SchemaError => 3
    case Unimplemented => 4
    case ConversationNotInitialized => 5
    case AuthenticationTimeout => 6
    case AuthFailUserInactive => 7
    case AuthFailInvalidToken => 8
    case InactivenessTimeout => 9
    case UnknownError => 10
  }

  /** The value written out in the declaration at position `i`; `None` for `enum.auto()`. */
  function Declared(i: nat): Option<int>
  {
    if i == 0 then Some(0) else if i == 1 then Some(100) else None
  }

  /**
   * The value Python's `Enum` gives the member at position `i`: the declared value,
   * or for `enum.auto()` the previous member's value plus one.
   */
  function CodeAt(i: nat): (r: int)
    requires i < |Members|
    ensures i == 0 ==> r == 0
    ensures i >= 1 ==> r == 99 + i
  {
    match Declared(i)
    case Some(v) => v
    case None => if i == 0 then 1 else CodeAt(i - 1) + 1
  }

  /** The integer value of a member: 0 for `Ok`, otherwise 99 plus its position. */
  function Code(e: ErrorEnum): (r: int)
    ensures e == Ok ==> r == 0
    ensures e != Ok ==> r == 99 + Index(e)
  {
    CodeAt(Index(e))
  }

  /** The first member at position `from` or later whose value is `n`. */
  function FindCode(n: int, from: nat): (r: Option<ErrorEnum>)
    requires from <= |Members|
    ensures r.Some? ==> Code(r.value) == n
    decreases |Members| - from
  {
    if from == |Members| then None
    else if CodeAt(from) == n then Some(Members[from])
    else FindCode(n, from + 1)
  }

  /** The member whose value is `n`, as `ErrorEnum(n)` looks it up. */
  function FromCode(n: int): (r: Option<ErrorEnum>)
    ensures r.Some? ==> Code(r.value) == n
  {
    FindCode(n, 0)
  }

  /** The first two members carry their declared values. */
  lemma FirstTwoDeclared()
    ensures Code(Ok) == 0 && Code(Unauthenticated) == 100
  {
  }

  /** Every member after `Unauthenticated` is its predecessor's value plus one. */
  lemma AutoIsSuccessor(i: nat)
    requires 2 <= i < |Members|
    ensures Code(Members[i]) == Code(Members[i - 1]) + 1
  {
  }

  /** The full table: 0, then 100 through 109 in declaration order. */
  lemma CodeTable()
    ensures Code(Ok) == 0
    ensures Code(Unauthenticated) == 100
    ensures Code(ConversationClosed) == 101
    ensures Code(SchemaError) == 102
    ensures Code(Unimplemented) == 103
    ensures Code(ConversationNotInitialized) == 104
    ensures Code(AuthenticationTimeout) == 105
    ensures Code(AuthFailUserInactive) == 106
    ensures Code(AuthFailInvalidToken) == 107
    ensures Code(InactivenessTimeout) == 108
    ensures Code(UnknownError) == 109
  {
  }

  /** Values grow strictly along the declaration. */
  lemma CodeAtStrictlyIncreasing(i: nat, j: nat)
    requires i < j < |Members|
    ensures CodeAt(i) < CodeAt(j)
  {
  }

  /** Distinct members have distinct values. */
  lemma CodesDistinct(e1: ErrorEnum, e2: ErrorEnum)
    requires e1 != e2
    ensures Code(e1) != Code(e2)
  {
    var i, j := Index(e1), Index(e2);
    if i < j {
      CodeAtStrictlyIncreasing(i, j);
    } else {
      CodeAtStrictlyIncreasing(j, i);
    }
  }

  /** A search that starts at or before a member's position finds exactly that member. */
  lemma {:induction false} FindCodeFinds(e: ErrorEnum, from: nat)
    requires from <= Index(e)
    ensures FindCode(Code(e), from) == Some(e)
    decreases |Members| - from
  {
    if from < Index(e) {
      CodeAtStrictlyIncreasing(from, Index(e));
      FindCodeFinds(e, from + 1);
    }
  }

  /** Decoding a member's value gives the member back. */
  lemma DecodeEncode(e: ErrorEnum)
    ensures FromCode(Code(e)) == Some(e)
  {
    FindCodeFinds(e, 0);
  }

  /** Encoding a decoded value gives the value back, and only member values decode. */
  lemma EncodeDecode(n: int)
    ensures FromCode(n).Some? <==> exists e: ErrorEnum :: Code(e) == n
    ensures FromCode(n).Some? ==> Code(FromCode(n).value) == n
  {
    if exists e: ErrorEnum :: Code(e) == n {
      var e: ErrorEnum :| Code(e) == n;
      DecodeEncode(e);
    }
  }

  /** `UnknownError` is declared last and has the largest value. */
  lemma UnknownErrorIsLargest(e: ErrorEnum)
    ensures Members[|Members| - 1] == UnknownError
    ensures Code(e) <= Code(UnknownError)
    ensures e != UnknownError ==> Code(e) < Code(UnknownError)
  {
    if e != UnknownError {
      CodeAtStrictlyIncreasing(Index(e), Index(UnknownError));
    }
  }

  /** `Ok` is the only member whose value is below 100. */
  lemma OnlyOkBelowHundred(e: ErrorEnum)
    ensures Code(e) < 100 <==> e == Ok
  {
  }
}
