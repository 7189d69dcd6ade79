/** Per-request state shared by the HTTP filters (internal/httpcm/types.go). */
module Http {

  class RequestCtx {
    var upstreamCluster: string
    var rewritePath: string
    var routeId: int
    var upstreamAddr: string
    var responded: bool
    var statusCode: int

    constructor ()
      ensures upstreamCluster == "" && rewritePath == "" && routeId == 0
      ensures upstreamAddr == "" && !responded && statusCode == 0
    {
      upstreamCluster, rewritePath, routeId := "", "", 0;
      upstreamAddr, responded, statusCode := "", false, 0;
    }
  }

  /** ASCII upper case. */
  function Upper(s: string): (u: string)
    ensures |u| == |s|
    ensures forall i :: 0 <= i < |s| ==>
              && !('a' <= u[i] <= 'z')
              && (u[i] == s[i] || ('a' <= s[i] <= 'z' && u[i] as int + 32 == s[i] as int))
  {
    seq(|s|, i requires 0 <= i < |s| => if 'a' <= s[i] <= 'z' then (s[i] as int - 32) as char else s[i])
  }

  /** ASCII lower case. */
  function Lower(s: string): (l: string)
    ensures |l| == |s|
    ensures forall i :: 0 <= i < |s| ==>
              && !('A' <= l[i] <= 'Z')
              && (l[i] == s[i] || ('A' <= s[i] <= 'Z' && l[i] as int == s[i] as int + 32))
  {
    seq(|s|, i requires 0 <= i < |s| => if 'A' <= s[i] <= 'Z' then (s[i] as int + 32) as char else s[i])
  }
}
