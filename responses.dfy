/**
 * The response every handler converges on: an HTTP status code and the
 * actionResponse body (status, action, message, file).
 */
module Responses {

  const StatusOk := "ok"
  const StatusError := "error"

  const HttpOk := 200
  const HttpBadRequest := 400
  const HttpMethodNotAllowed := 405
  const HttpRequestEntityTooLarge := 413
  const HttpInternalServerError := 500
  const HttpNotImplemented := 501

  const MessageEnvNotSet := "Environment variables not set"
  const MessageMethodNotSupported := "Unsupported HTTP method"
  const MessageNotSufficientData := "POST data doesn't have sufficient data"
  const MessageIoError := "Unknown IO error"
  const MessageBackupFileNotFound := "Backup file not found"
  const MessageFileNameNotSet := "File name doesn't set by request URL"
  /** http.StatusText(http.StatusInternalServerError) */
  const TextInternalServerError := "Internal Server Error"

  /** The JSON body; an empty string stands for a field omitted by `omitempty`. */
  datatype ActionResponse = ActionResponse(status: string, action: string, message: string, file: string)

  /** One call of writeResponse: the status code and the body written. */
  datatype Response = Response(code: int, body: ActionResponse)

  /** An error response of the shape every failure path writes. */
  function ErrorResponse(code: int, action: string, message: string): (resp: Response)
  {
    Response(code, ActionResponse(StatusError, action, message, ""))
  }

  /** The success response of an action that produces no file. */
  function OkResponse(action: string): (resp: Response)
  {
    Response(HttpOk, ActionResponse(StatusOk, action, "", ""))
  }
}
