/** The API server and the informer cache, by contract.  Every object name has the history of
    all versions stored under it (`None` while it is absent).  A read may return any past
    version; a write commits only if the version it was computed from is still the last. */
module Histories {
  import opened Api

  type History<T> = h: seq<Option<T>> | |h| > 0 witness [None]

  /** What happens to one request besides the version check. */
  datatype Fault = Healthy | Rejected | ReplyLost

  function Latest<T>(h: History<T>): Option<T> { h[|h| - 1] }

  function Version<T>(h: History<T>): nat { |h| - 1 }

  /** The version a read returns that is `lag` versions behind. */
  function ReadVersion<T>(h: History<T>, lag: nat): nat { if lag < |h| then |h| - 1 - lag else 0 }

  function ReadAt<T>(h: History<T>, lag: nat): Option<T> { h[ReadVersion(h, lag)] }

  /** A write that changes nothing does not produce a new version. */
  function Commit<T(==)>(h: History<T>, x: Option<T>): History<T> {
    if Latest(h) == x then h else h + [x]
  }

  function CompareAndSwap<T(==)>(h: History<T>, version: nat, x: Option<T>, fault: Fault): History<T> {
    if version == Version(h) && !fault.Rejected? then Commit(h, x) else h
  }

  /** What a caller learns of a versioned write. */
  datatype WriteError = NoError | NotFoundError | OtherError

  /** What a versioned write of `x`, computed from `version`, may do and answer.  The history never
      loses a version and gains at most one; a write that is answered without an error is the latest
      version, and one that is refused has left no trace.  A lost reply is an error although the write
      is stored, and a write to an object that is gone is answered with NotFound. */
  predicate Outcome<T(==)>(h: History<T>, h': History<T>, version: nat, x: Option<T>, fault: Fault, err: WriteError) {
    && h <= h' && |h'| <= |h| + 1
    && (Latest(h') == Latest(h) ==> h' == h)
    && (err.NoError? ==> Latest(h') == x)
    && (version != Version(h) || Latest(h).None? || fault.Rejected? ==> h' == h && !err.NoError?)
    && (version == Version(h) && Latest(h).Some? && fault.Healthy? ==> err.NoError?)
    && (version == Version(h) && Latest(h).Some? && fault.ReplyLost? ==> err.OtherError? && Latest(h') == x)
    && (err.NotFoundError? <==> Latest(h).None? && !fault.Rejected?)
  }

  /** Compare-and-swap is the one write with these outcomes. */
  lemma OnlyOutcome<T>(h: History<T>, h': History<T>, version: nat, x: Option<T>, fault: Fault, err: WriteError)
    requires version < |h| && h[version].Some?
    ensures Outcome(h, h', version, x, fault, err) <==>
              && h' == CompareAndSwap(h, version, x, fault)
              && err == (if Latest(h).None? && !fault.Rejected? then NotFoundError
                         else if version == Version(h) && fault.Healthy? then NoError
                         else OtherError)
  {
    if h <= h' && |h'| == |h| + 1 {
      assert h' == h + [Latest(h')];
    }
  }

  /** Storing an object that is being deleted and has lost its finalizer removes it. */
  function AdmitResource(r: Resource): Option<Resource> {
    if r.meta.deleting && !r.meta.finalizer then None else Some(r)
  }

  function AdmitBinding(b: Binding): Option<Binding> {
    if b.meta.deleting && !b.meta.finalizer then None else Some(b)
  }
}
