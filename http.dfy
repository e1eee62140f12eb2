/** The JSON envelope every API response carries: `{success, message?, data?, error?, timestamp?}`. */
module Http {
  import opened Wrappers
  import opened Records

  datatype Payload = One(svg: SvgRecord) | Many(svgs: seq<SvgRecord>)

  datatype Body = Body(
    success: bool, message: Option<string>, data: Option<Payload>,
    error: Option<string>, timestamp: Option<string>)

  datatype Response = Response(status: int, body: Body)

  /** An error handed to Express's error-handling middleware: its `code`, if any, and `message`. */
  datatype AppError = AppError(code: Option<string>, message: string)

  /** `res.status(status).json({success: false, message})`. */
  function Failure(status: int, message: string): Response {
    Response(status, Body(false, Some(message), None, None, None))
  }

  /** A 500 answer that carries the error detail `{success: false, message, error}`. */
  function ServerFault(message: string, detail: string): Response {
    Response(500, Body(false, Some(message), None, Some(detail), None))
  }

  /** `res.json({success: true, message?, data?})`, status 200 unless given. */
  function Success(status: int, message: Option<string>, data: Option<Payload>): Response {
    Response(status, Body(true, message, data, None, None))
  }
}
