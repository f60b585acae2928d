/** Encoder and decoder together. */
module RoundTrip {
  import opened Codes
  import opened Gf64
  import opened Bits
  import opened Matrices
  import opened Rs6Spec
  import opened Rs6
  import opened Encoders

  /** A buffer whose symbols differ from those of a code word in at most half the distance is
      restored to that code word. */
  method Receive(data: array<bv8>, n: nat, par: nat, ghost sent: seq<Sym>) returns (ok: bool)
    requires n <= 36 && par <= 16 && 6 * n <= 8 * data.Length
    requires |sent| == n && IsCodeword(sent, par)
    requires |Difference(Symbols(data[..], n), sent)| <= par / 2
    modifies data
    ensures ok && Symbols(data[..], n) == sent
  {
    assert Near(Symbols(data[..], n), sent, par);
    hide *;
    ok := Rs6Decode(data, n, par);
  }

  /** Encoding and decoding without errors in between: the decoder accepts and changes no bit,
      so the data symbols come back as they went in. */
  method EncodeDecode(c: Code, data: array<bv8>) returns (ok: bool)
    requires c != C241213 && 6 * c.N() <= 8 * data.Length
    modifies data
    ensures ok && Encoded(c, old(data[..]), data[..])
  {
    Encode(c, data);
    ghost var e := data[..];
    EncodedIsNear(c, old(data[..]), e);
    hide IsCodeword, Near, SameOutside, Symbols, Encoded;
    ok := Rs6Decode(data, c.N(), c.Par());
  }

  lemma EncodedIsNear(c: Code, d: seq<bv8>, e: seq<bv8>)
    requires |d| == |e| && 6 * c.N() <= 8 * |d| && Encoded(c, d, e) && c.N() <= 36
    ensures IsCodeword(Symbols(e, c.N()), c.Par()) && Near(Symbols(e, c.N()), Symbols(e, c.N()), c.Par())
  {
    NearSelf(Symbols(e, c.N()), c.Par());
  }
}
