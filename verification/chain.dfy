/** Coded error chains and their classification (pkg/errors/code.go):
    ParseCoder classifies only the outermost node, IsCode searches the
    whole run of coded nodes reached through their causes. */
module CodedErrors {
  import opened Results
  import opened Coders
  import opened Registry

  /** An error value as the classifiers see it: no error at all, an error
      that carries no code, or a coded node (`*withCode`) with its code,
      message and cause. */
  datatype Error =
    | Nil
    | Plain(text: string)
    | WithCode(code: int, msg: string, cause: Error)

  /** Wrapc wraps a non-nil cause into a coded node carrying `code` and `msg`;
      the code need not be registered. */
  function Wrapc(cause: Error, code: int, msg: string): (r: Error)
    requires cause != Nil
    ensures r.WithCode? && r.code == code && r.msg == msg && r.cause == cause
  {
    WithCode(code, msg, cause)
  }

  /** ParseCoder: no metadata for no error; the registered coder for an
      outermost coded node whose code is in the table; the unknown sentinel
      for anything else. */
  function ParseCoder(t: Table, err: Error): (r: Option<Coder>)
    ensures r.None? <==> err.Nil?
    ensures err.Plain? ==> r == Some(Unknown)
    ensures err.WithCode? && err.code in t ==> r == Some(t[err.code])
    ensures err.WithCode? && err.code !in t ==> r == Some(Unknown)
    ensures KeyedByCode(t) && r.Some? ==>
              r.value.Code() == 0 || (err.WithCode? && r.value.Code() == err.code)
  {
    match err
    case Nil => None
    case WithCode(code, _, _) =>
      if code in t then Some(t[code]) else Some(Unknown)
    case Plain(_) => Some(Unknown)
  }

  /** IsCode: whether `code` is the code of some coded node on the chain,
      following causes for as long as they are coded nodes. */
  function IsCode(err: Error, code: int): (r: bool)
    ensures r ==> err.WithCode?
  {
    match err
    case WithCode(c, _, cause) =>
      if c == code then true
      else if cause != Nil then IsCode(cause, code)
      else false
    case _ => false
  }

  /** The number of coded nodes at the head of the chain: the maximal run of
      `WithCode` nodes reached by following causes. */
  ghost function Depth(err: Error): nat {
    match err
    case WithCode(_, _, cause) => 1 + Depth(cause)
    case _ => 0
  }

  /** The error reached from `err` by following `n` causes; a node without a
      cause is a fixed point. */
  ghost function Follow(err: Error, n: nat): Error {
    if n == 0 then err
    else match err
      case WithCode(_, _, cause) => Follow(cause, n - 1)
      case _ => err
  }

  /** The node `n` causes down from `err` is a coded node with code `code`. */
  ghost predicate HasCodeAt(err: Error, n: nat, code: int) {
    Follow(err, n).WithCode? && Follow(err, n).code == code
  }

  /** Every node within the first Depth(err) steps is a coded node ... */
  lemma {:induction false} FollowWithinDepth(err: Error, n: nat)
    requires n < Depth(err)
    ensures Follow(err, n).WithCode?
  {
    if n > 0 {
      FollowWithinDepth(err.cause, n - 1);
    }
  }

  /** ... and the node reached after Depth(err) steps is not, so the run of
      coded nodes is maximal. */
  lemma {:induction false} FollowAtDepth(err: Error)
    ensures !Follow(err, Depth(err)).WithCode?
  {
    if err.WithCode? {
      FollowAtDepth(err.cause);
    }
  }

  /** IsCode holds exactly when some node among the leading coded nodes of
      the chain carries the code. */
  lemma {:induction false} IsCodeIff(err: Error, code: int)
    ensures IsCode(err, code) <==> exists n :: 0 <= n < Depth(err) && HasCodeAt(err, n, code)
  {
    match err
    case Nil =>
    case Plain(_) =>
    case WithCode(c, _, cause) =>
      if c == code {
        assert HasCodeAt(err, 0, code);
      } else {
        IsCodeIff(cause, code);
        if IsCode(err, code) {
          var j :| 0 <= j < Depth(cause) && HasCodeAt(cause, j, code);
          assert Follow(err, j + 1) == Follow(cause, j);
          assert HasCodeAt(err, j + 1, code);
        }
        if exists n :: 0 <= n < Depth(err) && HasCodeAt(err, n, code) {
          var n :| 0 <= n < Depth(err) && HasCodeAt(err, n, code);
          assert n != 0;
          assert Follow(err, n) == Follow(cause, n - 1);
          assert HasCodeAt(cause, n - 1, code);
          assert cause != Nil;
        }
      }
  }

  /** ParseCoder reads only the outermost node's code: the node's message
      and everything below it are irrelevant. */
  lemma ParseCoderHeadOnly(t: Table, code: int, m1: string, m2: string, c1: Error, c2: Error)
    ensures ParseCoder(t, WithCode(code, m1, c1)) == ParseCoder(t, WithCode(code, m2, c2))
  {
  }

  /** Once a non-zero code is registered, wrapping any error with that code
      classifies as exactly the registered coder. */
  lemma ParseCoderAfterRegister(t: Table, coder: Coder, cause: Error, msg: string)
    requires coder.Code() != 0
    requires cause != Nil
    ensures Register(t, coder).Success?
    ensures ParseCoder(Register(t, coder).value, Wrapc(cause, coder.Code(), msg)) == Some(coder)
  {
  }

  /** On a valid table the fallback coder is the table's own entry for 0. */
  lemma ParseCoderFallbackIsEntryZero(t: Table, err: Error)
    requires Valid(t)
    requires err != Nil
    ensures ParseCoder(t, err).value.Code() == 0 ==> ParseCoder(t, err).value == t[0]
  {
  }

  /** A non-zero classification always names a code that IsCode finds on the
      chain; the converse fails, since ParseCoder ignores every cause. */
  lemma ParseCoderImpliesIsCode(t: Table, err: Error)
    requires KeyedByCode(t)
    requires ParseCoder(t, err).Some? && ParseCoder(t, err).value.Code() != 0
    ensures IsCode(err, ParseCoder(t, err).value.Code())
  {
  }

  /** The asymmetry made concrete: a two-node chain whose inner code is
      registered is found by IsCode, yet ParseCoder reports the sentinel
      because the outer code is not registered. */
  lemma HeadOnlyVersusWholeChain()
    ensures var t := Register(Init(), Coder(500, 2, "inner")).value;
            var e := WithCode(1, "outer", WithCode(2, "inner", Plain("base")));
            IsCode(e, 2) && ParseCoder(t, e) == Some(Unknown)
  {
  }
}
