/** Error-code metadata: the `defaultCoder` record of pkg/errors/code.go and
    the reserved "unknown" sentinel. */
module Coders {

  /** The HTTP status the sentinel answers with (net/http's
      StatusInternalServerError). */
  const InternalServerError: int := 500

  /** One error code's metadata: the HTTP status to answer with (0 when unset),
      the integer code, and the text shown to end users. */
  datatype Coder = Coder(http: int, c: int, ext: string) {

    /** The HTTP status to use for this code. An unset status (0) stands for
        500; any other stored status is returned as it is. */
    function HTTPStatus(): (r: int)
      ensures r != 0
      ensures http != 0 ==> r == http
      ensures http == 0 ==> r == InternalServerError
    {
      if http == 0 then InternalServerError else http
    }

    /** The integer code, which is also the coder's identity in the table. */
    function Code(): int {
      c
    }

    /** The external (user facing) error text. */
    function String(): string {
      ext
    }
  }

  /** The reserved sentinel for unknown errors, bound to code 0. */
  const Unknown: Coder := Coder(InternalServerError, 0, "An internal server error occurred")

  /** The sentinel is bound to the reserved code 0, answers 500 and carries
      the fixed internal-error text. */
  lemma UnknownIsReserved()
    ensures Unknown.Code() == 0
    ensures Unknown.HTTPStatus() == 500
    ensures Unknown.String() == "An internal server error occurred"
  {
  }
}
