/** The lengths kept in and taken from an HTTP message header (MsgHdr.cc). */
module MsgHdr {
  import opened Scan
  import opened Http
  import opened HttpPrint
  import opened HttpFraming
  import opened Buffers

  // TYPE_NONE, or TYPE_HTTP with its header.
  class MsgHdr {
    var isHttp: bool
    const http: HTTPFraming

    constructor ()
      ensures isHttp && fresh(http) && fresh(http.uri) && http.msgHdrs == []
    {
      isHttp := true;
      http := new HTTPFraming();
    }

    // snprintf("%d", (int)body_len), then AppendMsgHdr: a second call, or a
    // length that was received, is an error and changes nothing.
    method SetBodyLen(bodyLen: nat) returns (event: bool)
      modifies http`msgHdrs
      ensures isHttp ==> AppendHdr(old(http.msgHdrs), BodyLenHdr(bodyLen)) == if event then Bad else Got(http.msgHdrs, "")
      ensures isHttp && !event ==> (MsgLen(http.msgHdrs) == bodyLen <==> bodyLen < 0x8000_0000)
      ensures !isHttp || event ==> http.msgHdrs == old(http.msgHdrs)
    {
      event := false;
      if isHttp {
        if FindHdr(http.msgHdrs, CONTENT_LENGTH) == |http.msgHdrs| { BodyLenRoundTrip(http.msgHdrs, bodyLen); }
        event := http.AppendMsgHdr(Header(CONTENT_LENGTH, PrintInt(ToInt(bodyLen)), []));
      }
    }

    method BodyLen() returns (n: int)
      ensures n == if isHttp then MsgLen(http.msgHdrs) else 0
    {
      n := 0;
      if isHttp { n := http.GetMsgLen(); }
    }

    method HdrLen() returns (n: nat)
      ensures n == if isHttp then |Cut(PrintHdr(http.Value(), false))| else 0
    {
      n := 0;
      if isHttp { n := http.HdrLen(false); }
    }

    method Clear()
      modifies this, http, http.uri
      ensures !isHttp && http.msgHdrs == []
    {
      isHttp := false;
      http.Clear();
    }
  }
}
