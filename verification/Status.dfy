/** The status codes of the library that its packet and stream operations return. */
module SrtpStatus {
  datatype Status =
    | Ok
    | Fail
    | BadParam
    | InitFail
    | AuthFail
    | CipherFail
    | ReplayFail
    | ReplayOld
    | NoCtx
    | CantCheck
    | KeyExpired
    | ParseErr
    | BadMki
    | IndexOld
    | IndexAdvance

  datatype Option<T> = None | Some(value: T)
}
