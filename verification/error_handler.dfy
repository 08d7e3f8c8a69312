/** `useErrorHandler`: choosing the message for a failed call and showing it as
    an error toast. */
module ErrorHandler {
  import opened Common
  import opened Toasts

  /** The parts of an API error the handler reads; each may be missing. */
  datatype ErrorBody = ErrorBody(error: Option<string>, detail: Option<string>)
  datatype ErrorResponse = ErrorResponse(data: Option<ErrorBody>, status: Option<int>)
  datatype ApiError = ApiError(response: Option<ErrorResponse>, message: Option<string>)

  const DefaultMessage: string := "오류가 발생했습니다"
  const ErrorTitle: string := "오류"
  const Unauthorized: string := "인증이 필요합니다. 다시 로그인해주세요."
  const Forbidden: string := "접근 권한이 없습니다."
  const NotFound: string := "요청한 리소스를 찾을 수 없습니다."
  const ServerError: string := "서버 오류가 발생했습니다. 잠시 후 다시 시도해주세요."

  function BodyError(e: ApiError): Option<string> {
    if e.response.Some? && e.response.value.data.Some? then e.response.value.data.value.error else None
  }

  function BodyDetail(e: ApiError): Option<string> {
    if e.response.Some? && e.response.value.data.Some? then e.response.value.data.value.detail else None
  }

  function Status(e: ApiError): Option<int> {
    if e.response.Some? then e.response.value.status else None
  }

  /** The message before the status codes are looked at: the first non-empty
      one of the body's `error`, the body's `detail` and the error's `message`,
      else the default. */
  function BaseMessage(e: ApiError, default: string): (m: string)
    ensures Truthy(BodyError(e)) ==> m == BodyError(e).value
    ensures !Truthy(BodyError(e)) && Truthy(BodyDetail(e)) ==> m == BodyDetail(e).value
    ensures !Truthy(BodyError(e)) && !Truthy(BodyDetail(e)) && Truthy(e.message) ==> m == e.message.value
    ensures !Truthy(BodyError(e)) && !Truthy(BodyDetail(e)) && !Truthy(e.message) ==> m == default
  {
    if Truthy(BodyError(e)) then BodyError(e).value
    else if Truthy(BodyDetail(e)) then BodyDetail(e).value
    else if Truthy(e.message) then e.message.value
    else default
  }

  /** The fixed text a status code replaces the message with, if any. */
  function StatusText(status: Option<int>): Option<string> {
    if status == Some(401) then Some(Unauthorized)
    else if status == Some(403) then Some(Forbidden)
    else if status == Some(404) then Some(NotFound)
    else if status == Some(500) then Some(ServerError)
    else None
  }

  /** `handleError`: the chosen message, shown as an error toast titled "오류"
      and returned. */
  function HandleError(st: ToastState, e: ApiError, default: string): (r: (ToastState, string))
    ensures StatusText(Status(e)).Some? ==> r.1 == StatusText(Status(e)).value
    ensures StatusText(Status(e)).None? ==> r.1 == BaseMessage(e, default)
    ensures r.0.toasts == st.toasts + [Toast(ToastId(st.nextId), ToastOptions(Some(Error), ErrorTitle, Some(r.1), None, None))]
    ensures r.0.nextId == st.nextId + 1
  {
    var m := match StatusText(Status(e)) case Some(t) => t case None => BaseMessage(e, default);
    (ErrorToast(st, ErrorTitle, Some(m)).0, m)
  }

  /** With a non-empty default the handler never shows an empty message. */
  lemma MessageNeverEmpty(st: ToastState, e: ApiError, default: string)
    requires |default| > 0
    ensures |HandleError(st, e, default).1| > 0
  {
  }

  /** A 401, 403, 404 or 500 decides the message alone: the body, the error's
      own message and the default are not looked at. */
  lemma StatusDecidesAlone(st: ToastState, e1: ApiError, e2: ApiError, d1: string, d2: string)
    requires Status(e1) == Status(e2) && StatusText(Status(e1)).Some?
    ensures HandleError(st, e1, d1).1 == HandleError(st, e2, d2).1
  {
  }

  /** The message is returned as it is shown, and the toast list stays well
      formed. */
  lemma HandleErrorKeepsWf(st: ToastState, e: ApiError, default: string)
    requires Wf(st)
    ensures Wf(HandleError(st, e, default).0)
    ensures var r := HandleError(st, e, default);
            r.0.toasts[|r.0.toasts| - 1].options.message == Some(r.1)
  {
    var m := HandleError(st, e, default).1;
    AddKeepsWf(st, ToastOptions(Some(Error), ErrorTitle, Some(m), None, None));
  }
}
