/** The server's answer to a file request, and the client's reading of it. */
module Serving {
  import opened Basics
  import opened ChunkFiles
  import opened FileReader
  import opened RangeHeader
  import opened Text
  import opened Urls
  import opened Validation

  /** Headers of a request; a header that is missing or no text is None. */
  datatype FileRequest = FileRequest(
    path: string,
    authorization: Option<string>,
    fileHash: Option<string>,
    contentRange: Option<string>)

  /** The body of an error response, a message, is left empty. */
  datatype HttpResponse = HttpResponse(status: nat, contentRange: Option<string>, body: Bytes)

  const OK: nat := 200
  const PARTIAL_CONTENT: nat := 206
  const UNAUTHORIZED: nat := 401
  const NOT_FOUND: nat := 404
  const NOT_ACCEPTABLE: nat := 406
  const RANGE_NOT_SATISFIABLE: nat := 416
  const INTERNAL_SERVER_ERROR: nat := 500

  function ErrorResponse(status: nat): HttpResponse {
    HttpResponse(status, None, [])
  }

  function ContentRangeText(start: nat, end: nat, size: nat): string {
    "bytes " + Print(start) + "-" + Print(end) + "/" + Print(size)
  }

  function RangeResponse(disk: Disk, path: string, start: u64, end: u64): Outcome<HttpResponse> {
    if path !in disk then Ok(ErrorResponse(INTERNAL_SERVER_ERROR))
    else
      var size := |disk[path]|;
      if start >= size || end >= size then Ok(ErrorResponse(RANGE_NOT_SATISFIABLE))
      else if start > end then Panic
      else Ok(HttpResponse(PARTIAL_CONTENT, Some(ContentRangeText(start, end, size)), disk[path][start..end + 1]))
  }

  method ServeFileRange(disk: Disk, path: string, start: u64, end: u64) returns (r: Outcome<HttpResponse>)
    ensures r == RangeResponse(disk, path, start, end)
  {
    if path !in disk {
      return Ok(ErrorResponse(INTERNAL_SERVER_ERROR));
    }
    var file := new OpenFile(disk[path], FullReads);
    var fileSize := |file.contents|;
    if start >= fileSize || end >= fileSize {
      return Ok(ErrorResponse(RANGE_NOT_SATISFIABLE));
    }
    if start > end {
      return Panic;
    }
    var length := end - start + 1;
    file.Seek(start);
    var buffer := file.ReadExact(length);
    match buffer {
      case Some(data) =>
        r := Ok(HttpResponse(PARTIAL_CONTENT, Some(ContentRangeText(start, end, fileSize)), data));
      case None => r := Ok(ErrorResponse(INTERNAL_SERVER_ERROR));
    }
  }

  function WholeFile(disk: Disk, path: string): HttpResponse {
    if path in disk then HttpResponse(OK, None, disk[path]) else ErrorResponse(INTERNAL_SERVER_ERROR)
  }

  /** The first entry with the hash. */
  function FindChunkFile(metas: seq<ChunkFileMeta>, hash: string): (r: Option<ChunkFileMeta>)
    ensures r.None? ==> forall k :: 0 <= k < |metas| ==> metas[k].metaInfo.hash != hash
    ensures r.Some? ==> exists k :: 0 <= k < |metas| && r.value == metas[k] && metas[k].metaInfo.hash == hash
                                    && forall j :: 0 <= j < k ==> metas[j].metaInfo.hash != hash
  {
    if metas == [] then None
    else if metas[0].metaInfo.hash == hash then Some(metas[0])
    else FindChunkFile(metas[1..], hash)
  }

  /** A server without a token serves everybody. */
  predicate Authorized(token: Option<string>, authorization: Option<string>) {
    token.None? || authorization == token
  }

  function FileService(subfiles: map<string, Subfile>, token: Option<string>, disk: Disk, request: FileRequest)
    : Outcome<HttpResponse>
  {
    var id := TrimStartMatches(request.path, ROUTE);
    if !Authorized(token, request.authorization) then Ok(ErrorResponse(UNAUTHORIZED))
    else if id !in subfiles then Ok(ErrorResponse(NOT_FOUND))
    else if request.fileHash.None? then Ok(ErrorResponse(NOT_ACCEPTABLE))
    else
      match FindChunkFile(subfiles[id].chunkFiles, request.fileHash.value)
      case None => Ok(ErrorResponse(NOT_FOUND))
      case Some(meta) =>
        var path := PathPush(subfiles[id].localPath, meta.metaInfo.name);
        match request.contentRange
        case None => Ok(WholeFile(disk, path))
        case Some(text) =>
          match ParseRangeHeader(text)
          case Ok((start, end)) => RangeResponse(disk, path, start, end)
          case Err(e) => Err(e)
          case Panic => Panic
  }

  /** The client takes the body of a successful response that has a content range. */
  function AcceptedBody(response: Outcome<HttpResponse>): Option<Bytes> {
    match response
    case Ok(r) => if 200 <= r.status < 300 && r.contentRange.Some? then Some(r.body) else None
    case _ => None
  }

  /** Server and validator read the same bytes: for every range they succeed together with the same
      data, and fail together in corresponding ways. */
  lemma ServerAgreesWithValidator(disk: Disk, path: string, start: u64, end: u64)
    ensures match FileSlice(disk, path, start, end)
            case Ok(data) =>
              && RangeResponse(disk, path, start, end)
                 == Ok(HttpResponse(PARTIAL_CONTENT, Some(ContentRangeText(start, end, |disk[path]|)), data))
              && AcceptedBody(RangeResponse(disk, path, start, end)) == Some(data)
              && |data| == end - start + 1
            case Err(InvalidRange) => RangeResponse(disk, path, start, end) == Ok(ErrorResponse(RANGE_NOT_SATISFIABLE))
            case Err(_) => RangeResponse(disk, path, start, end) == Ok(ErrorResponse(INTERNAL_SERVER_ERROR))
            case Panic => RangeResponse(disk, path, start, end) == Panic
    ensures AcceptedBody(RangeResponse(disk, path, start, end)).Some? <==> FileSlice(disk, path, start, end).Ok?
    ensures start <= end ==> FileSlice(disk, path, start, end) != Panic
  {
  }

  /** The identifier of a request path is what follows the route, however often the route is repeated. */
  lemma RoutedId(id: string, n: nat)
    requires !(ROUTE <= id)
    ensures TrimStartMatches(Repeated(ROUTE, n) + id, ROUTE) == id
    ensures TrimStartMatches(ROUTE + id, ROUTE) == id
  {
    TrimRepeated(ROUTE, n, id);
    TrimRepeated(ROUTE, 1, id);
    assert Repeated(ROUTE, 1) == ROUTE + Repeated(ROUTE, 0) == ROUTE;
  }

  // ----- the answers, one by one -----

  /** The server's answer has this status and neither a range nor a body. */
  predicate Refused(answer: Outcome<HttpResponse>, status: nat) {
    answer.Ok? && answer.value.status == status && answer.value.contentRange == None && answer.value.body == []
  }

  /** A request is refused as unauthorized, without any byte of a file, if and only if the server has a token
      and the request's is another or none. */
  lemma UnauthorizedIff(subfiles: map<string, Subfile>, token: Option<string>, disk: Disk, request: FileRequest)
    ensures token.Some? && request.authorization != token <==>
              FileService(subfiles, token, disk, request).Ok? && FileService(subfiles, token, disk, request).value.status == 401
    ensures token.Some? && request.authorization != token ==>
              Refused(FileService(subfiles, token, disk, request), 401)
  {
  }

  /** Admitted: the server has no token, or the request has the server's, and its path names the identifier. */
  predicate Admitted(token: Option<string>, request: FileRequest, id: string) {
    && (token == None || request.authorization == token)
    && request.path == "/subfiles/id/" + id && !("/subfiles/id/" <= id)
  }

  /** An identifier that is not served, a request without a file hash, and a hash the subfile does not have. */
  lemma NotFoundAnswers(subfiles: map<string, Subfile>, token: Option<string>, disk: Disk, request: FileRequest, id: string)
    requires Admitted(token, request, id)
    ensures id !in subfiles ==> Refused(FileService(subfiles, token, disk, request), 404)
    ensures id in subfiles && request.fileHash == None ==> Refused(FileService(subfiles, token, disk, request), 406)
    ensures id in subfiles && request.fileHash.Some?
            && (forall meta :: meta in subfiles[id].chunkFiles ==> meta.metaInfo.hash != request.fileHash.value) ==>
              Refused(FileService(subfiles, token, disk, request), 404)
  {
    RoutedId(id, 1);
  }

  /** The request is for the local file at this path: that of the first entry with the hash. */
  ghost predicate Requests(subfiles: map<string, Subfile>, request: FileRequest, id: string, path: string) {
    && id in subfiles && request.fileHash.Some?
    && exists k :: && 0 <= k < |subfiles[id].chunkFiles|
                   && subfiles[id].chunkFiles[k].metaInfo.hash == request.fileHash.value
                   && (forall j :: 0 <= j < k ==> subfiles[id].chunkFiles[j].metaInfo.hash != request.fileHash.value)
                   && path == PathPush(subfiles[id].localPath, subfiles[id].chunkFiles[k].metaInfo.name)
  }

  /** Without a range the whole file is sent, or an error when it is not on the disk. */
  lemma WholeFileAnswers(subfiles: map<string, Subfile>, token: Option<string>, disk: Disk, request: FileRequest,
                         id: string, path: string)
    requires Admitted(token, request, id) && Requests(subfiles, request, id, path) && request.contentRange == None
    ensures path in disk ==> FileService(subfiles, token, disk, request) == Ok(HttpResponse(200, None, disk[path]))
    ensures path !in disk ==> Refused(FileService(subfiles, token, disk, request), 500)
  {
    RoutedId(id, 1);
  }

  /** With a range: two numerals are served with the bytes from the first to the second, both included, if both
      lie in the file; they are refused if one does not, and the server panics if they are in the wrong order.
      Any other text is an error. */
  lemma RangeAnswers(subfiles: map<string, Subfile>, token: Option<string>, disk: Disk, request: FileRequest,
                     id: string, path: string)
    requires Admitted(token, request, id) && Requests(subfiles, request, id, path) && request.contentRange.Some?
    ensures var answer := FileService(subfiles, token, disk, request);
            match ParseRangeHeader(request.contentRange.value)
            case Ok((start, end)) =>
              if path !in disk then Refused(answer, 500)
              else if start >= |disk[path]| || end >= |disk[path]| then Refused(answer, 416)
              else if start > end then answer == Panic
              else
                answer == Ok(HttpResponse(206, Some("bytes " + Print(start) + "-" + Print(end) + "/" + Print(|disk[path]|)),
                                          disk[path][start..end + 1]))
            case _ => answer == Err(InvalidRange)
  {
    RoutedId(id, 1);
    ParseRangeRefuses(request.contentRange.value);
  }

  /** The client takes only the bodies of successful answers with a range: of this server's, the partial ones. */
  lemma AcceptedBodyIff(answer: Outcome<HttpResponse>, data: Bytes)
    ensures AcceptedBody(answer) == Some(data) <==>
              && answer.Ok? && 200 <= answer.value.status && answer.value.status <= 299
              && answer.value.contentRange != None && answer.value.body == data
  {
  }

  lemma AcceptedIsPartial(subfiles: map<string, Subfile>, token: Option<string>, disk: Disk, request: FileRequest)
    ensures AcceptedBody(FileService(subfiles, token, disk, request)).Some? <==>
              FileService(subfiles, token, disk, request).Ok? && FileService(subfiles, token, disk, request).value.status == 206
    ensures AcceptedBody(FileService(subfiles, token, disk, request)).Some? ==>
              request.contentRange.Some? && (token == None || request.authorization == token)
  {
  }
}
