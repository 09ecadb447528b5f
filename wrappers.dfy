/** Option values and Go `error` values shared by every part of the model. */
module Wrappers {

  datatype Option<+T> = None | Some(value: T)

  /** A Go `error`. `Msg` is what `errors.New` and a `fmt.Errorf` without `%w`
      build; `Wrapped` is `fmt.Errorf("<prefix>%w", cause)`, whose text is the
      prefix followed by the cause's text. */
  datatype Error = Msg(text: string) | Wrapped(prefix: string, cause: Error)
  {
    /** The text `err.Error()` returns. */
    function Text(): string
    {
      match this
      case Msg(t) => t
      case Wrapped(p, c) => p + c.Text()
    }

    /** `errors.Is(this, target)`: target is this error or one it wraps. */
    predicate Is(target: Error)
    {
      this == target || (Wrapped? && cause.Is(target))
    }
  }

  /** The error `ctx.Err()` reports once the context has been cancelled. */
  const Canceled: Error := Msg("context canceled")
}
