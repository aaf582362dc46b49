/** The identity layers of the write pipeline. With no compression and no
    encryption configured, the archive goes through an `IdentityCompressor`
    wrapped around an `IdentityCryptor` wrapped around the upload target;
    both layers hand every call straight to the writer below and give that
    writer back, untouched, when finalized. */
module Pipeline {
  import opened Wrappers
  import opened Text

  /** What a broken target answers `finalize`. */
  const Unfinished := "target could not complete the upload"

  /** One call a writer received, with what it answered. */
  datatype Call =
    | WriteCall(buf: seq<byte>, result: Result<nat, string>)
    | FlushCall(outcome: Outcome<string>)

  /** The upload target at the bottom of the pipeline, reduced to what the
      layers above it can observe: the bytes it has taken, in order, and the
      calls it has answered. Its storage back ends are not part of this
      model; `broken` stands for one that refuses every call. */
  class Target {
    const broken: bool
    var log: seq<byte>
    var finalized: bool
    ghost var calls: seq<Call>

    constructor (broken: bool)
      ensures this.broken == broken
      ensures log == [] && !finalized && calls == []
    {
      this.broken := broken;
      log := [];
      finalized := false;
      calls := [];
    }

    /** `io::Write::write`: takes a prefix of `buf`, or fails and takes nothing. */
    method Write(buf: seq<byte>) returns (r: Result<nat, string>)
      modifies this`log, this`calls
      ensures r.Success? ==> r.value <= |buf| && log == old(log) + buf[..r.value]
      ensures r.Failure? ==> log == old(log)
      ensures calls == old(calls) + [WriteCall(buf, r)]
    {
      if broken {
        r := Failure("target refused the write");
      } else {
        log := log + buf;
        r := Success(|buf|);
        assert buf[..|buf|] == buf;
      }
      calls := calls + [WriteCall(buf, r)];
    }

    method Flush() returns (r: Outcome<string>)
      modifies this`calls
      ensures calls == old(calls) + [FlushCall(r)]
    {
      r := if broken then Fail("target refused the flush") else Pass;
      calls := calls + [FlushCall(r)];
    }

    /** `Target::finalize`: completes the upload of what the target took. */
    method Finalize() returns (r: Outcome<string>)
      modifies this`finalized
      ensures r == if broken then Fail(Unfinished) else Pass
      ensures finalized == (old(finalized) || r.Pass?)
    {
      if broken {
        return Fail(Unfinished);
      }
      finalized := true;
      return Pass;
    }
  }

  /** `IdentityCryptor`: the encryption layer when no encryption is configured. */
  class IdentityCryptor {
    const inner: Target
    /** Every byte this layer reported written, in order. */
    ghost var accepted: seq<byte>
    /** What the target held when this layer was put on top of it. */
    ghost const base: seq<byte>
    ghost var calls: seq<Call>

    /** No buffering: the target holds exactly what this layer accepted. */
    ghost predicate Valid()
      reads this, inner
    {
      inner.log == base + accepted
    }

    constructor (w: Target)
      ensures inner == w && base == w.log && accepted == [] && calls == []
      ensures Valid()
    {
      inner := w;
      base := w.log;
      accepted := [];
      calls := [];
    }

    /** `write`: one call to the target with the same bytes; its answer is returned as is. */
    method Write(buf: seq<byte>) returns (r: Result<nat, string>)
      requires Valid()
      modifies inner`log, inner`calls, this`accepted, this`calls
      ensures Valid()
      ensures inner.calls == old(inner.calls) + [WriteCall(buf, r)]
      ensures r.Success? ==> r.value <= |buf| && accepted == old(accepted) + buf[..r.value]
      ensures r.Failure? ==> accepted == old(accepted)
      ensures calls == old(calls) + [WriteCall(buf, r)]
    {
      r := inner.Write(buf);
      if r.Success? {
        accepted := accepted + buf[..r.value];
      }
      calls := calls + [WriteCall(buf, r)];
    }

    /** `flush`: one call to the target's `flush`; its answer is returned as is. */
    method Flush() returns (r: Outcome<string>)
      requires Valid()
      modifies inner`calls, this`calls
      ensures Valid()
      ensures inner.calls == old(inner.calls) + [FlushCall(r)]
      ensures calls == old(calls) + [FlushCall(r)]
    {
      r := inner.Flush();
      calls := calls + [FlushCall(r)];
    }

    /** `finalize`: gives back the target it was made with, untouched. */
    method Finalize() returns (r: Result<Target, string>)
      ensures r == Success(inner)
    {
      return Success(inner);
    }
  }

  /** `IdentityCompressor`: the compression layer when no compression is configured. */
  class IdentityCompressor {
    const inner: IdentityCryptor
    ghost var accepted: seq<byte>
    ghost const base: seq<byte>

    /** No buffering in either layer: the cryptor accepted exactly what this
        layer accepted, and the target holds it. */
    ghost predicate Valid()
      reads this, inner, inner.inner
    {
      && inner.Valid()
      && inner.accepted == base + accepted
    }

    /** The target at the bottom of the pipeline. */
    function Sink(): Target
      reads this, inner
    {
      inner.inner
    }

    constructor (w: IdentityCryptor)
      requires w.Valid()
      ensures inner == w && base == w.accepted && accepted == []
      ensures Valid()
    {
      inner := w;
      base := w.accepted;
      accepted := [];
    }

    /** `write`: one call to the cryptor with the same bytes; its answer is
        returned as is, so the target takes exactly the bytes reported written. */
    method Write(buf: seq<byte>) returns (r: Result<nat, string>)
      requires Valid()
      modifies inner`accepted, inner`calls, inner.inner`log, inner.inner`calls, this`accepted
      ensures Valid()
      ensures inner.calls == old(inner.calls) + [WriteCall(buf, r)]
      ensures r.Success? ==> r.value <= |buf| && accepted == old(accepted) + buf[..r.value]
      ensures r.Success? ==> Sink().log == old(Sink().log) + buf[..r.value]
      ensures r.Failure? ==> accepted == old(accepted) && Sink().log == old(Sink().log)
    {
      r := inner.Write(buf);
      if r.Success? {
        accepted := accepted + buf[..r.value];
      }
    }

    /** `flush`: one call to the cryptor's `flush`; its answer is returned as is. */
    method Flush() returns (r: Outcome<string>)
      requires Valid()
      modifies inner`calls, inner.inner`calls
      ensures Valid()
      ensures inner.calls == old(inner.calls) + [FlushCall(r)]
      ensures Sink().log == old(Sink().log)
    {
      r := inner.Flush();
    }

    /** `finalize`: gives back the cryptor it was made with, untouched. */
    method Finalize() returns (r: Result<IdentityCryptor, string>)
      ensures r == Success(inner)
    {
      return Success(inner);
    }
  }

  /** `create_pipeline` with neither compression nor encryption configured:
      the identity layers over a freshly allocated target. Whatever is then
      written through the compressor reaches the target unchanged. */
  method CreatePipeline(target: Target) returns (c: IdentityCompressor)
    ensures fresh(c) && fresh(c.inner)
    ensures c.Sink() == target && c.Valid() && c.accepted == []
    ensures c.inner.base == target.log && c.base == []
  {
    var cryptor := new IdentityCryptor(target);
    c := new IdentityCompressor(cryptor);
  }

  /** The end-to-end property of the identity pipeline: after any writes that
      kept it valid, the target holds exactly the bytes reported written. */
  lemma Delivers(c: IdentityCompressor)
    requires c.Valid()
    ensures c.Sink().log == c.inner.base + c.base + c.accepted
  {
  }
}
