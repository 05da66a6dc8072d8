// The backing file: a growable byte string that is read, overwritten and
// resized.  Reads, writes, resizes and flushes may fail at any time when
// `mayFail` is set; a failed write may leave anything in the range it was
// writing.
module FileStorage {
  import opened FitsBytes

  // What a write of `data` at `pos` leaves: a gap before it reads as zeros.
  function Overwrite(s: seq<byte>, pos: nat, data: seq<byte>): (r: seq<byte>)
    ensures |r| == Max(|s|, pos + |data|)
    ensures forall i :: 0 <= i < |data| ==> r[pos + i] == data[i]
    ensures forall i :: 0 <= i < |s| && !(pos <= i < pos + |data|) ==> r[i] == s[i]
  {
    seq(Max(|s|, pos + |data|), i requires 0 <= i =>
      if pos <= i < pos + |data| then data[i - pos] else if i < |s| then s[i] else 0)
  }

  // What a resize leaves: cut, or extended with zeros.
  function Resized(s: seq<byte>, n: nat): (r: seq<byte>)
    ensures |r| == n
    ensures forall i :: 0 <= i < n ==> r[i] == if i < |s| then s[i] else 0
  {
    seq(n, i requires 0 <= i => if i < |s| then s[i] else 0)
  }

  // What a failed write of n bytes at `pos` may leave.
  predicate Torn(s: seq<byte>, pos: nat, n: nat, r: seq<byte>) {
    && |s| <= |r| <= Max(|s|, pos + n)
    && forall i :: 0 <= i < |s| && !(pos <= i < pos + n) ==> r[i] == s[i]
  }

  class Storage {
    var bytes: seq<byte>
    const mayFail: bool

    constructor (contents: seq<byte>, mayFail: bool)
      ensures bytes == contents && this.mayFail == mayFail
    {
      bytes, this.mayFail := contents, mayFail;
    }

    method Fault() returns (fault: bool)
      ensures fault ==> mayFail
    {
      fault := *;
      fault := fault && mayFail;
    }

    // seek + read_exact
    method Read(pos: nat, n: nat) returns (ok: bool, data: seq<byte>)
      ensures ok ==> pos + n <= |bytes| && data == bytes[pos..pos + n]
      ensures !mayFail && pos + n <= |bytes| ==> ok
    {
      var fault := Fault();
      ok := !fault && pos + n <= |bytes|;
      data := if ok then bytes[pos..pos + n] else [];
    }

    // seek + write_all
    method Write(pos: nat, data: seq<byte>) returns (ok: bool)
      modifies this
      ensures ok ==> bytes == Overwrite(old(bytes), pos, data)
      ensures !ok ==> Torn(old(bytes), pos, |data|, bytes)
      ensures !mayFail ==> ok
    {
      var fault := Fault();
      ok := !fault;
      if ok {
        bytes := Overwrite(bytes, pos, data);
      } else {
        var junk: seq<byte> := *;
        if 0 < |junk| <= |data| {
          bytes := Overwrite(bytes, pos, junk);
        }
      }
    }

    method SetLen(n: nat) returns (ok: bool)
      modifies this
      ensures bytes == if ok then Resized(old(bytes), n) else old(bytes)
      ensures !mayFail ==> ok
    {
      var fault := Fault();
      ok := !fault;
      if ok {
        bytes := Resized(bytes, n);
      }
    }

    method Flush() returns (ok: bool)
      ensures !mayFail ==> ok
    {
      var fault := Fault();
      ok := !fault;
    }
  }
}
