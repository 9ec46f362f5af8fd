/** `ConnectionHandler` (src/handler.rs) carries its own copies of the
    response selection and layout of `WebServer`; they are modelled as
    written and proved to agree with those of `WebServer`. */
module ConnectionHandler {
  import opened Http
  import WebServer

  /** `ConnectionHandler::get_response`. */
  function GetResponse(buffer: Buffer): (r: (string, string))
    ensures r.0 == Ok || r.0 == NotFound
    ensures r.1 == NotFoundPage <==> r.0 == NotFound
    ensures r.1 == HelloPage <==> r.0 == Ok
    ensures r.0 == Ok <==> StartsWith(buffer, RootRequestLine) || StartsWith(buffer, SleepRequestLine)
  {
    var get := Ascii("GET / HTTP/1.1\r\n");
    var sleep := Ascii("GET /sleep HTTP/1.1\r\n");
    if StartsWith(buffer, get) then
      ("200 OK", "hello.html")
    else if StartsWith(buffer, sleep) then
      ("200 OK", "hello.html")
    else
      ("404 NOT FOUND", "404.html")
  }

  /** `ConnectionHandler::format_response`. */
  function FormatResponse(status: string, contents: string): (r: string)
    ensures |r| == 9 + |status| + 4 + |contents|
    ensures StartsWith(r, StatusPrefix + status + EmptyLine)
    ensures r[|r| - |contents|..] == contents
  {
    var httpVersion := "HTTP/1.1";
    httpVersion + " " + status + "\r\n\r\n" + contents
  }

  /** Both copies answer every buffer alike. */
  lemma GetResponseAgrees(buffer: Buffer)
    ensures GetResponse(buffer) == WebServer.GetResponse(buffer)
  {
  }

  /** Both copies lay out every response alike. */
  lemma FormatResponseAgrees(status: string, contents: string)
    ensures FormatResponse(status, contents) == WebServer.FormatResponse(status, contents)
  {
  }
}
