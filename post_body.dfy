/** `processPost`: buffering a request body under a size limit, and the method guard. */
module PostBody {
  import opened Text

  /** The body limit: more than 1e6 UTF-16 code units aborts the request. */
  const MaxBody: nat := 1000000

  /** The chunks of a body, concatenated in arrival order. */
  function Concat(chunks: seq<string>): string
  {
    if chunks == [] then "" else Concat(chunks[..|chunks| - 1]) + chunks[|chunks| - 1]
  }

  /** A prefix of the chunks never makes a longer body than all of them. */
  lemma {:induction false} ConcatPrefixLength(chunks: seq<string>, i: nat)
    requires i <= |chunks|
    ensures Utf16Length(Concat(chunks[..i])) <= Utf16Length(Concat(chunks))
    decreases |chunks|
  {
    if i < |chunks| {
      var init := chunks[..|chunks| - 1];
      assert init[..i] == chunks[..i];
      ConcatPrefixLength(init, i);
      Utf16LengthAppend(Concat(init), chunks[|chunks| - 1]);
    } else {
      assert chunks[..i] == chunks;
    }
  }

  /** The state the `data` listener of one request closes over. */
  class Buffer {
    /** `queryData`: the body received so far. */
    var queryData: string
    /** The 413 response has been written and the connection destroyed. */
    var aborted: bool

    ghost predicate Valid()
      reads this
    {
      Utf16Length(queryData) <= MaxBody
    }

    constructor ()
      ensures Valid() && queryData == "" && !aborted
    {
      queryData := "";
      aborted := false;
    }

    /**
     * The `data` listener: append the chunk; past the limit, empty the buffer, answer 413 and destroy
     * the connection. A destroyed connection delivers no further chunks.
     */
    method OnData(data: string)
      requires Valid() && !aborted
      modifies this
      ensures Valid()
      ensures Utf16Length(old(queryData) + data) > MaxBody ==> queryData == "" && aborted
      ensures Utf16Length(old(queryData) + data) <= MaxBody ==> queryData == old(queryData) + data && !aborted
    {
      queryData := queryData + data;
      if Utf16Length(queryData) > MaxBody {
        queryData := "";
        aborted := true;
      }
    }
  }

  /** How buffering a request ends. */
  datatype BodyOutcome =
    | MethodNotAllowed   // 405, nothing read
    | TooLarge           // 413, buffer emptied and connection destroyed
    | Complete(body: string)   // `end`: the body goes to the parser and then to the handler

  /**
   * `processPost` for a request with the given method whose body arrives
   * as `chunks`: 405 for anything but POST, 413 once the body passes the limit, else the whole body.
   */
  method ProcessPost(httpMethod: string, chunks: seq<string>) returns (outcome: BodyOutcome)
    ensures httpMethod != "POST" ==> outcome == MethodNotAllowed
    ensures httpMethod == "POST" && Utf16Length(Concat(chunks)) > MaxBody ==> outcome == TooLarge
    ensures httpMethod == "POST" && Utf16Length(Concat(chunks)) <= MaxBody ==> outcome == Complete(Concat(chunks))
  {
    if httpMethod != "POST" {
      return MethodNotAllowed;
    }
    var request := new Buffer();
    var i := 0;
    while i < |chunks| && !request.aborted
      invariant 0 <= i <= |chunks|
      invariant request.Valid()
      invariant !request.aborted ==> request.queryData == Concat(chunks[..i])
      invariant request.aborted ==> Utf16Length(Concat(chunks[..i])) > MaxBody
    {
      assert chunks[..i + 1][..i] == chunks[..i];
      request.OnData(chunks[i]);
      i := i + 1;
    }
    ConcatPrefixLength(chunks, i);
    if request.aborted {
      return TooLarge;
    }
    assert chunks[..i] == chunks;
    return Complete(request.queryData);
  }

  /**
   * The limit counts code units, not characters: 500,001 characters outside the Basic Multilingual
   * Plane are within 1e6 characters but over 1e6 code units, so such a body is refused.
   */
  lemma AstralBodyTooLarge(body: string)
    requires |body| == 500001
    requires forall i :: 0 <= i < |body| ==> body[i] == '\U{1F600}'
    ensures |body| <= MaxBody && Utf16Length(Concat([body])) > MaxBody
  {
    assert [body][..0] == [];
    assert Concat([body]) == body;
    Utf16LengthAstral(body);
  }
}
