/** The closed enumeration of filter operators and its case-insensitive lookup. */
module FilterOperator {
  import opened Wrappers
  import opened JavaStrings

  datatype Op = Eq | Ne | Like | NotLike | Gt | Lt | Gte | Lte | In | NotIn | Between | IsNull | IsNotNull

  /** `values()`, in declaration order. */
  const Values: seq<Op> := [Eq, Ne, Like, NotLike, Gt, Lt, Gte, Lte, In, NotIn, Between, IsNull, IsNotNull]

  /** `name()`: the constant's identifier as declared. */
  function Name(o: Op): string
  {
    match o
    case Eq => "eq"
    case Ne => "ne"
    case Like => "like"
    case NotLike => "not_like"
    case Gt => "gt"
    case Lt => "lt"
    case Gte => "gte"
    case Lte => "lte"
    case In => "in"
    case NotIn => "not_in"
    case Between => "between"
    case IsNull => "is_null"
    case IsNotNull => "is_not_null"
  }

  /** The stream `filter(name equalsIgnoreCase tok).findFirst()` over `ops`. */
  function FindFirst(ops: seq<Op>, tok: string): (r: Option<Op>)
    ensures r.Some? ==> r.value in ops && EqualsIgnoreCase(Name(r.value), tok)
    ensures r.None? <==> forall k :: 0 <= k < |ops| ==> !EqualsIgnoreCase(Name(ops[k]), tok)
  {
    if ops == [] then None
    else if EqualsIgnoreCase(Name(ops[0]), tok) then Some(ops[0])
    else FindFirst(ops[1..], tok)
  }

  /** `FilterOperator.from(op)`; `None` is a Java `null`, which matches no name. */
  function From(op: Option<string>): (r: Result<Op>)
    ensures r.Ok? ==> op.Some? && EqualsIgnoreCase(Name(r.value), op.value)
    ensures r.Err? ==> StartsWith(r.msg, "Invalid operator: ")
  {
    match op
    case None => Err("Invalid operator: null")
    case Some(tok) =>
      match FindFirst(Values, tok)
      case Some(o) => Ok(o)
      case None => Err("Invalid operator: " + tok)
  }

  /** The enumeration has exactly thirteen distinct constants. */
  lemma ValuesEnumerateOp()
    ensures |Values| == 13
    ensures forall o: Op :: o in Values
    ensures forall i, j :: 0 <= i < j < |Values| ==> Values[i] != Values[j]
  {
    forall o: Op ensures o in Values {
      assert Values[IndexIn(o)] == o;
    }
  }

  lemma {:induction false} LowerOfLowercase(s: string)
    requires forall i :: 0 <= i < |s| ==> !('A' <= s[i] <= 'Z')
    ensures Lower(s) == s
  {
  }

  /** No two operator names are equal ignoring case, so `findFirst` picks a unique constant. */
  lemma NamesDistinctIgnoringCase(o1: Op, o2: Op)
    requires EqualsIgnoreCase(Name(o1), Name(o2))
    ensures o1 == o2
  {
    NameIsLower(o1);
    NameIsLower(o2);
    NameInjective(o1, o2);
  }

  /** Every operator name is already in lower case. */
  lemma NameIsLower(o: Op)
    ensures Lower(Name(o)) == Name(o)
  {
    var n := Name(o);
    assert forall i :: 0 <= i < |n| ==> !('A' <= n[i] <= 'Z');
    LowerOfLowercase(n);
  }

  lemma NameInjective(o1: Op, o2: Op)
    requires Name(o1) == Name(o2)
    ensures o1 == o2
  {
    var n := Name(o1);
    assert |n| == |Name(o2)| && n[0] == Name(o2)[0] && n[|n| - 1] == Name(o2)[|n| - 1];
    if |n| > 4 {
      assert n[4] == Name(o2)[4];
    }
  }

  /** `from` accepts a token exactly when it names some constant ignoring case,
      and then returns that constant. */
  lemma FromMatchesName(tok: string, o: Op)
    ensures From(Some(tok)) == Ok(o) <==> EqualsIgnoreCase(Name(o), tok)
  {
    var r := FindFirst(Values, tok);
    ValuesEnumerateOp();
    if EqualsIgnoreCase(Name(o), tok) {
      assert Values[IndexIn(o)] == o;
      assert r.Some?;
      NamesDistinctIgnoringCase(r.value, o);
    }
  }

  /** Position of a constant in `values()`. */
  function IndexIn(o: Op): (k: nat)
    ensures k < |Values| && Values[k] == o
  {
    match o
    case Eq => 0 case Ne => 1 case Like => 2 case NotLike => 3 case Gt => 4 case Lt => 5
    case Gte => 6 case Lte => 7 case In => 8 case NotIn => 9 case Between => 10
    case IsNull => 11 case IsNotNull => 12
  }

  /** Round trip: every constant's name, as declared or upper-cased, maps back to it. */
  lemma FromName(o: Op)
    ensures From(Some(Name(o))) == Ok(o)
    ensures From(Some(Upper(Name(o)))) == Ok(o)
  {
    FromMatchesName(Name(o), o);
    UpperEqualsIgnoreCase(Name(o));
    FromMatchesName(Upper(Name(o)), o);
  }

  /** A token that names no constant, and `null`, raise "Invalid operator: <tok>". */
  lemma FromRejects(op: Option<string>)
    requires op.Some? ==> forall o: Op :: !EqualsIgnoreCase(Name(o), op.value)
    ensures From(op) == Err("Invalid operator: " + (if op.None? then "null" else op.value))
  {
    if op.Some? {
      forall k | 0 <= k < |Values| ensures !EqualsIgnoreCase(Name(Values[k]), op.value) {
      }
    }
  }
}
