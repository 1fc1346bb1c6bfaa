/** Values shared by the wallet loader and the session driver. */
module Types {

  /** A Go value that may be nil: `None` stands for nil. */
  datatype Option<+T> = None | Some(value: T)

  /** The error values that flow through the wallet session. Errors that a
      wallet middleware call returns are passed on unchanged, so they carry
      their own reason; the others are the ones this code creates itself. */
  datatype Error =
    | MiddlewareError(reason: string)   // returned by a wallet middleware call
    | ReadError                         // the prompt could not read another line
    | WalletAlreadyExists               // "wallet already exists"
    | PassphrasesDoNotMatch             // "passphrases do not match"
    | WalletDoesNotExist                // "Wallet doesn't exist"
    | Canceled                          // ctx.Err() once the context is cancelled
    | OperationError(reason: string)    // returned by the HTTP server or the CLI run

  /** The reply of a middleware call that returns a value and an error;
      the loader always looks at the error first, so a reply is one or the other. */
  datatype Reply<+T> = Value(value: T) | Failed(error: Error)
}
