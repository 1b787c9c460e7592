/** The process-wide code table of pkg/errors/code.go, threaded through pure
    functions: every registration takes the current table and returns either
    the new table or the fault that the source raises as a panic. */
module Registry {
  import opened Results
  import opened Coders

  /** The code table: integer code to its metadata. */
  type Table = map<int, Coder>

  /** Why a registration takes its programming-error (panic) path. */
  datatype Fault =
    | ReservedCode          // the coder's code is the reserved 0
    | CodeExists(code: int) // MustRegister found the code already present

  /** Every entry is filed under its own coder's code. */
  predicate KeyedByCode(t: Table) {
    forall k :: k in t ==> t[k].Code() == k
  }

  /** Code 0 is bound to the unknown sentinel. */
  predicate HasSentinel(t: Table) {
    0 in t && t[0] == Unknown
  }

  /** The invariant the table keeps for the whole process lifetime. */
  predicate Valid(t: Table) {
    KeyedByCode(t) && HasSentinel(t)
  }

  /** The table as the package's init leaves it: the sentinel alone. */
  function Init(): (t: Table)
    ensures t.Keys == {0}
    ensures t[0] == Unknown
    ensures Valid(t)
  {
    map[Unknown.Code() := Unknown]
  }

  /** Register: files `coder` under its code, overwriting any earlier entry
      for that code; code 0 is refused. */
  function Register(t: Table, coder: Coder): (r: Result<Table, Fault>)
    ensures r.Failure? <==> coder.Code() == 0
    ensures r.Failure? ==> r.error == ReservedCode
    ensures r.Success? ==> r.value.Keys == t.Keys + {coder.Code()}
    ensures r.Success? ==> r.value[coder.Code()] == coder
    ensures r.Success? ==> forall k :: k in t && k != coder.Code() ==> r.value[k] == t[k]
    ensures r.Success? && Valid(t) ==> Valid(r.value)
  {
    if coder.Code() == 0 then Failure(ReservedCode)
    else Success(t[coder.Code() := coder])
  }

  /** MustRegister: like Register, but a code that is already present is
      refused instead of overwritten. */
  function MustRegister(t: Table, coder: Coder): (r: Result<Table, Fault>)
    ensures r.Failure? <==> coder.Code() == 0 || coder.Code() in t
    ensures coder.Code() == 0 ==> r.Failure? && r.error == ReservedCode
    ensures coder.Code() != 0 && coder.Code() in t ==> r.Failure? && r.error == CodeExists(coder.Code())
    ensures r.Success? ==> r == Register(t, coder)
    ensures r.Success? ==> coder.Code() !in t && |r.value| == |t| + 1
  {
    if coder.Code() == 0 then Failure(ReservedCode)
    else if coder.Code() in t then Failure(CodeExists(coder.Code()))
    else Success(t[coder.Code() := coder])
  }

  /** Registering the same code twice with Register succeeds both times and
      the table ends up as if only the second coder had been registered. */
  lemma RegisterTwiceLastWins(t: Table, first: Coder, second: Coder)
    requires first.Code() == second.Code() != 0
    ensures Register(t, first).Success?
    ensures Register(Register(t, first).value, second) == Register(t, second)
    ensures Register(t, second).value[second.Code()] == second
  {
    var c := second.Code();
    assert t[c := first][c := second] == t[c := second];
  }

  /** After a successful MustRegister, any second MustRegister of the same
      code fails and reports that code. */
  lemma MustRegisterTwiceFails(t: Table, first: Coder, second: Coder)
    requires first.Code() == second.Code()
    requires MustRegister(t, first).Success?
    ensures MustRegister(MustRegister(t, first).value, second) == Failure(CodeExists(second.Code()))
  {
  }

  /** The codes of a sequence of coders. */
  ghost function CodesOf(coders: seq<Coder>): set<int> {
    set i | 0 <= i < |coders| :: coders[i].Code()
  }

  /** The last coder in `coders` that carries code `k`, if any. */
  ghost predicate LastWithCode(coders: seq<Coder>, i: int) {
    0 <= i < |coders| &&
    forall j :: i < j < |coders| ==> coders[j].Code() != coders[i].Code()
  }

  /** An init function that issues Register for each coder in order: the
      first coder with code 0 panics and aborts the rest. Otherwise every
      code ends up filed with the last coder registered for it, and every
      other entry is untouched. */
  function RegisterAll(t: Table, coders: seq<Coder>): (r: Result<Table, Fault>)
    ensures r.Failure? <==> exists i :: 0 <= i < |coders| && coders[i].Code() == 0
    ensures r.Success? ==> r.value.Keys == t.Keys + CodesOf(coders)
    ensures r.Success? ==> forall k :: k in t && k !in CodesOf(coders) ==> r.value[k] == t[k]
    ensures r.Success? ==> forall i :: LastWithCode(coders, i) ==> r.value[coders[i].Code()] == coders[i]
    ensures r.Success? && Valid(t) ==> Valid(r.value)
    decreases |coders|
  {
    if |coders| == 0 then Success(t)
    else
      match Register(t, coders[0])
      case Failure(f) => Failure(f)
      case Success(t1) =>
        var r := RegisterAll(t1, coders[1..]);
        assert forall i :: 1 <= i < |coders| ==> coders[i] == coders[1..][i - 1];
        assert CodesOf(coders) == {coders[0].Code()} + CodesOf(coders[1..]);
        r
  }

  /** One registration call as startup code issues it. */
  datatype Call = Reg(coder: Coder) | MustReg(coder: Coder)

  /** What the call returns: the new table, or the fault it panics with. */
  function Attempt(t: Table, call: Call): Result<Table, Fault> {
    match call
    case Reg(coder) => Register(t, coder)
    case MustReg(coder) => MustRegister(t, coder)
  }

  /** The table after the call: a call that panics leaves it as it was. */
  function After(t: Table, call: Call): (r: Table)
    ensures Attempt(t, call).Failure? ==> r == t
    ensures Valid(t) ==> Valid(r)
    ensures t.Keys <= r.Keys
  {
    match Attempt(t, call)
    case Success(t') => t'
    case Failure(_) => t
  }

  /** The table after a sequence of registration calls, each applied to the
      table the previous one left. */
  function Run(t: Table, calls: seq<Call>): Table
    decreases |calls|
  {
    if |calls| == 0 then t else Run(After(t, calls[0]), calls[1..])
  }

  /** No sequence of registration calls breaks the table invariant or removes
      a code: in particular the sentinel at code 0 is never replaced. */
  lemma {:induction false} RunKeepsValid(t: Table, calls: seq<Call>)
    requires Valid(t)
    ensures Valid(Run(t, calls))
    ensures t.Keys <= Run(t, calls).Keys
    ensures Run(t, calls)[0] == Unknown
    decreases |calls|
  {
    if |calls| > 0 {
      RunKeepsValid(After(t, calls[0]), calls[1..]);
    }
  }

  /** Starting from the package's initial table, the sentinel survives every
      sequence of Register and MustRegister calls. */
  lemma SentinelSurvives(calls: seq<Call>)
    ensures Valid(Run(Init(), calls))
    ensures Run(Init(), calls)[0] == Unknown
  {
    RunKeepsValid(Init(), calls);
  }
}
