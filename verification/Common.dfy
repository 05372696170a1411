/** Vocabulary shared by the components: optional values and the classes a failed fetch falls into. */
module Common {

  datatype Option<+T> = None | Some(value: T)

  /** How a fetch failed (src/shared/types.ts). */
  datatype FailureClass =
    | NetworkError
    | Timeout
    | Http5xx
    | Http429
    | Http403
    | NotFound
    | AuthRequired
    | BlockedByRobots
    | SsrfBlocked
    | TooLarge
    | CaptchaChallenge
    | InvalidContentType
    | ParseError
    | InternalError
    | ExecutorUnavailable

  function Min(a: int, b: int): int {
    if a <= b then a else b
  }

  function Max(a: int, b: int): int {
    if a >= b then a else b
  }

  ghost predicate NoDuplicates<T(!new)>(s: seq<T>) {
    forall i, j :: 0 <= i < j < |s| ==> s[i] != s[j]
  }

  lemma Associative<T>(a: seq<T>, b: seq<T>, c: seq<T>)
    ensures (a + b) + c == a + (b + c)
  {
  }
}
