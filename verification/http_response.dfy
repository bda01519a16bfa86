/** The HTTP response record that every layer of the browser fills in and the
    handler chain annotates in place. */
module Http {
  import opened Wrappers

  /** The abstract value of a response: its three fields. */
  datatype Resp = Resp(status: int, headers: map<string, string>, body: string)

  class HttpResponse {
    var statusCode: int
    var headers: map<string, string>
    var body: string

    function Value(): Resp
      reads this
    {
      Resp(statusCode, headers, body)
    }

    /** A fresh response: status 0 (no answer yet), no headers, empty body. */
    constructor ()
      ensures Value() == Resp(0, map[], "")
    {
      statusCode := 0;
      headers := map[];
      body := "";
    }

    method SetStatusCode(status: int)
      modifies this
      ensures Value() == old(Value()).(status := status)
    {
      statusCode := status;
    }

    /** Replaces the whole header map. */
    method SetHeaders(h: map<string, string>)
      modifies this
      ensures Value() == old(Value()).(headers := h)
    {
      headers := h;
    }

    method SetBody(b: string)
      modifies this
      ensures Value() == old(Value()).(body := b)
    {
      body := b;
    }

    /** `getHeaders().put(key, value)`: the getter hands out the live map, so a
        put through it updates this response's headers and nothing else. */
    method PutHeader(key: string, value: string)
      modifies this
      ensures Value() == old(Value()).(headers := old(headers)[key := value])
    {
      headers := headers[key := value];
    }

    /** `getHeaders().get(key)`, with None for Java's null. */
    function GetHeader(key: string): (v: Option<string>)
      reads this
      ensures v.Some? <==> key in headers
      ensures v.Some? ==> v.value == headers[key]
    {
      if key in headers then Some(headers[key]) else None
    }
  }
}
