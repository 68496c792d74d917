/** Request routing, signature verification and event dispatch (`init`, `verify`, `handler`). */
module Handler {
  import opened Wrappers
  import opened Text
  import opened Payloads
  import opened Formatters
  import opened PostBody

  /** `github.events`: the event names that have a formatter. */
  const Events: seq<string> := ["gollum", "push"]

  /** The two request headers the handler reads: `x-hub-signature` and `x-github-event`. */
  datatype Headers = Headers(signature: Option<string>, event: Option<string>)

  /**
   * The hex HMAC digest of a payload's serialization under the named algorithm and the shared secret,
   * or None when the crypto library does not know the algorithm (it throws).
   */
  type Hmac = (string, Post) -> Option<string>

  /**
   * `verify(hash, payload)`: split the header at `=` into algorithm and digest, compute the HMAC under
   * the algorithm and compare it with the digest. Each TypeError the code throws is an `Err`.
   */
  function Verify(signature: Option<string>, post: Post, hmac: Hmac): (r: Result<bool, Error>)
    ensures signature.None? ==> r == Err(NoSignature)
    ensures r.Ok? ==> signature.Some? && '=' in signature.value
    ensures r == Ok(true) ==>
              signature.Some? &&
              var algorithm := Split(signature.value, '=')[0];
              && '=' !in algorithm
              && hmac(algorithm, post).Some?
              && algorithm + "=" + hmac(algorithm, post).value <= signature.value
  {
    match signature
    case None => Err(NoSignature)
    case Some(header) =>
      var hash := Split(header, '=');
      SplitJoin(header, '=');
      JoinPrefix(hash, "=");
      assert |hash| >= 2 ==> header[|hash[0]|] == '=';
      match hmac(hash[0], post)
      case None => Err(UnknownAlgorithm)
      case Some(calculated) => if |hash| < 2 then Err(NoDigest) else Ok(hash[1] == calculated)
  }

  /**
   * A signature `algorithm=digest` is accepted exactly when the digest equals the HMAC: the signer's
   * own digest verifies, and any other digest (one with a changed character, say) does not.
   */
  lemma VerifyDigest(algorithm: string, digest: string, post: Post, hmac: Hmac, calculated: string)
    requires '=' !in algorithm && '=' !in digest
    requires hmac(algorithm, post) == Some(calculated)
    ensures Verify(Some(algorithm + "=" + digest), post, hmac) == Ok(digest == calculated)
  {
    var parts := [algorithm, digest];
    assert Join(parts, "=") == algorithm + "=" + digest by {
      assert parts[1..] == [digest];
    }
    JoinSplit(parts, '=');
  }

  /** A signature header without `=` has no digest and throws once the algorithm is known. */
  lemma VerifyNoDigest(header: string, post: Post, hmac: Hmac)
    requires '=' !in header && hmac(header, post).Some?
    ensures Verify(Some(header), post, hmac) == Err(NoDigest)
  {
    JoinSplit([header], '=');
  }

  /** `github[event](post)` for an allow-listed event: the message said, or the TypeError thrown. */
  function RunEvent(event: string, post: Post): (r: Result<Option<string>, Error>)
    requires event in Events
    ensures r == Err(WrongShape) <==> !(event == "push" && post.PushPost?) && !(event == "gollum" && post.GollumPost?)
    ensures event == "push" && post.PushPost? ==> (r.Ok? <==> |post.push.commits| >= 1)
    ensures event == "push" && r.Ok? ==> r.value.Some?
    ensures event == "gollum" && post.GollumPost? ==> (r.Ok? <==> |post.gollum.pages| >= 1)
    ensures event == "gollum" && post.GollumPost? ==> (r.Ok? && r.value.Some? <==> |post.gollum.pages| == 1)
  {
    if event == "push" then
      match post
      case PushPost(data) =>
        (match PushMessage(data)
         case Ok(message) => Ok(Some(message))
         case Err(e) => Err(e))
      case _ => Err(WrongShape)
    else
      match post
      case GollumPost(data) => GollumMessage(data)
      case _ => Err(WrongShape)
  }

  /** What `handler` did: the message said on the channel, whether the log was appended, the status. */
  datatype Reply = Reply(said: Option<string>, logged: bool, status: nat)

  /**
   * The decision of `handler` once `verified` is known: a verified request runs the formatter of an
   * allow-listed event and is logged; every request that does not throw is answered 200.
   */
  function Dispatch(verified: bool, event: Option<string>, post: Post): (r: Result<Reply, Error>)
    ensures r.Ok? ==> r.value.status == 200
    ensures r.Ok? ==> (r.value.logged <==> verified)
    ensures r.Ok? && r.value.said.Some? ==> verified && event.Some? && event.value in Events
    ensures r.Err? <==> verified && event.Some? && event.value in Events && RunEvent(event.value, post).Err?
    ensures verified && event.Some? && event.value in Events && RunEvent(event.value, post).Ok? ==>
              r == Ok(Reply(RunEvent(event.value, post).value, true, 200))
  {
    if verified then
      if event.Some? && event.value in Events then
        match RunEvent(event.value, post)
        case Err(e) => Err(e)
        case Ok(said) => Ok(Reply(said, true, 200))
      else
        Ok(Reply(None, true, 200))
    else
      Ok(Reply(None, false, 200))
  }

  /** `handler(request, response)`: verify, then dispatch. */
  function Handle(headers: Headers, post: Post, hmac: Hmac): (r: Result<Reply, Error>)
    ensures Verify(headers.signature, post, hmac).Err? ==> r.Err?
    ensures r.Ok? ==> r.value.status == 200
    ensures r.Ok? ==> (r.value.logged <==> Verify(headers.signature, post, hmac) == Ok(true))
    ensures r.Ok? && r.value.said.Some? ==>
              Verify(headers.signature, post, hmac) == Ok(true) && headers.event.Some? && headers.event.value in Events
  {
    match Verify(headers.signature, post, hmac)
    case Err(e) => Err(e)
    case Ok(verified) => Dispatch(verified, headers.event, post)
  }

  /** An unverified request is answered 200 and neither says anything nor is logged. */
  lemma HandleUnverified(headers: Headers, post: Post, hmac: Hmac)
    requires Verify(headers.signature, post, hmac) == Ok(false)
    ensures Handle(headers, post, hmac) == Ok(Reply(None, false, 200))
  {
  }

  /** A verified push without commits throws in the formatter: nothing is logged and no status is written. */
  lemma VerifiedEmptyPushThrows(headers: Headers, data: PushEvent, hmac: Hmac)
    requires Verify(headers.signature, PushPost(data), hmac) == Ok(true)
    requires headers.event == Some("push") && |data.commits| == 0
    ensures Handle(headers, PushPost(data), hmac) == Err(NoCommits)
  {
  }

  /** A verified push event carrying a wiki payload throws in the formatter as well. */
  lemma VerifiedWrongShapeThrows(headers: Headers, data: GollumEvent, hmac: Hmac)
    requires Verify(headers.signature, GollumPost(data), hmac) == Ok(true)
    requires headers.event == Some("push")
    ensures Handle(headers, GollumPost(data), hmac) == Err(WrongShape)
  {
  }

  /** One HTTP request: its method, its headers and its body as it arrives. */
  datatype Request = Request(httpMethod: string, headers: Headers, chunks: seq<string>)

  /**
   * What became of a request: the status written (None when an exception escaped first), the message
   * said, whether the log was appended and whether the connection was destroyed.
   */
  datatype Exchange = Exchange(status: Option<nat>, said: Option<string>, logged: bool, destroyed: bool)

  function Answer(r: Result<Reply, Error>): Exchange
  {
    match r
    case Ok(reply) => Exchange(Some(reply.status), reply.said, reply.logged, false)
    case Err(_) => Exchange(None, None, false, false)
  }

  /**
   * The server callback of `init`: POST requests go through `processPost` and then `handler`, every
   * other method is answered 200. `decode` stands for the body decoding of `processPost`.
   */
  method Serve(request: Request, decode: string -> Post, hmac: Hmac) returns (ex: Exchange)
    ensures request.httpMethod != "POST" ==> ex == Exchange(Some(200), None, false, false)
    ensures request.httpMethod == "POST" && Utf16Length(Concat(request.chunks)) > MaxBody ==>
              ex == Exchange(Some(413), None, false, true)
    ensures request.httpMethod == "POST" && Utf16Length(Concat(request.chunks)) <= MaxBody ==>
              ex == Answer(Handle(request.headers, decode(Concat(request.chunks)), hmac))
    ensures ex.said.Some? || ex.logged ==>
              && request.httpMethod == "POST" && Utf16Length(Concat(request.chunks)) <= MaxBody
              && Verify(request.headers.signature, decode(Concat(request.chunks)), hmac) == Ok(true)
    ensures ex.status.Some? ==> ex.status.value in {200, 413}
  {
    if request.httpMethod != "POST" {
      return Exchange(Some(200), None, false, false);
    }
    var outcome := ProcessPost(request.httpMethod, request.chunks);
    match outcome
    case TooLarge =>
      ex := Exchange(Some(413), None, false, true);
    case Complete(body) =>
      var post := decode(body);
      ex := Answer(Handle(request.headers, post, hmac));
    case MethodNotAllowed =>
      // processPost answers 405 only to a method other than POST, and those never reach it from here
      assert false;
  }
}
