/** The two calls of the server that move body bytes, read_req_body and append_resp_body,
    as their documentation states them: any call may fail or move less than asked. */
module ServerApi {

  import opened Bytes

  const LS_FAIL := -1

  /** The bytes one transfer may move: a steady one moves something if it can, a full one
      all it can. */
  predicate MayMove(steady: bool, full: bool, n: int, most: int) {
    && 0 <= n <= most
    && (steady && most > 0 ==> n > 0)
    && (full ==> n == most)
  }

  /** One request: the body still to be read and the response so far.  A transfer fails,
      or moves what it may.  In a steady session all transfers are steady; in a full one
      they are full as long as body is left to read.  The ghost counts tell
      what has gone wrong so far: transfers that failed, reads that were asked for bytes and
      gave none, appends that were cut short. */
  class Session {
    const body: seq<Byte>
    const steady: bool
    const full: bool
    var unread: seq<Byte>
    var appended: seq<Byte>
    ghost var failures: nat
    ghost var empties: nat
    ghost var cuts: nat

    constructor (body: seq<Byte>, steady: bool, full: bool)
      ensures this.body == body && unread == body && appended == []
      ensures this.steady == steady && this.full == full
      ensures failures == 0 && empties == 0 && cuts == 0
    {
      this.body := body;
      this.steady := steady;
      this.full := full;
      unread := body;
      appended := [];
      failures, empties, cuts := 0, 0, 0;
    }

    method ReadReqBody(buf: array<Byte>, at: nat, size: nat) returns (n: int)
      requires at + size <= buf.Length
      modifies this`unread, this`failures, this`empties, buf
      ensures n == LS_FAIL || MayMove(steady, full, n, Min(size, |old(unread)|))
      ensures n == LS_FAIL ==> unread == old(unread) && buf[..] == old(buf[..])
      ensures n != LS_FAIL ==> unread == old(unread)[n..] &&
                               buf[..] == old(buf[..])[..at] + old(unread)[..n] + old(buf[..])[at + n..]
      ensures failures == old(failures) + if n == LS_FAIL then 1 else 0
      ensures empties == old(empties) + if n == 0 && size > 0 then 1 else 0
    {
      var most := Min(size, |unread|);
      assert MayMove(steady, full, most, most);
      var fails: bool := *;
      if fails {
        failures := failures + 1;
        return LS_FAIL;
      }
      n :| MayMove(steady, full, n, most);
      assert MayMove(steady, full, n, most);
      forall i | 0 <= i < n {
        buf[at + i] := unread[i];
      }
      unread := unread[n..];
      if n == 0 && size > 0 {
        empties := empties + 1;
      }
    }

    method AppendRespBody(buf: array<Byte>, at: nat, size: nat) returns (n: int)
      requires at + size <= buf.Length
      modifies this`appended, this`failures, this`cuts
      ensures n == LS_FAIL || MayMove(steady, full && unread != [], n, size)
      ensures appended == if n == LS_FAIL then old(appended) else old(appended) + buf[at..at + n]
      ensures failures == old(failures) + if n == LS_FAIL then 1 else 0
      ensures cuts == old(cuts) + if n != LS_FAIL && n < size then 1 else 0
    {
      var whole := full && unread != [];
      assert MayMove(steady, whole, size, size);
      var fails: bool := *;
      if fails {
        failures := failures + 1;
        return LS_FAIL;
      }
      n :| MayMove(steady, whole, n, size);
      assert MayMove(steady, whole, n, size);
      if n < size {
        cuts := cuts + 1;
      }
      appended := appended + buf[at..at + n];
    }

    /** The length of a chunked body is known once it has been read. */
    method GetReqContentLength() returns (n: int)
      ensures n == |body| || (n == -1 && unread != [])
    {
      var known: bool := *;
      n := if known || unread == [] then |body| else -1;
    }
  }
}
