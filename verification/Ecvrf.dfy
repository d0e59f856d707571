/** ECVRF-P256-SHA256-TAI.  The curve group has prime order q and cofactor 1, so
    a point is its discrete logarithm to the base point: an integer modulo q,
    with 0 the point at infinity, which has no compressed form. */
module Ecvrf {
  import opened Basics
  import opened Octets
  import opened PrimeField

  const SUITE: byte := 1
  const PROOF_LENGTH: nat := 33 + 16 + 32

  /** The curve's order and point encoding, the hash and the nonce derivation. */
  datatype Suite = Suite(
    q: nat,
    marshal: nat -> seq<byte>,
    unmarshal: seq<byte> -> Option<nat>,
    hash: seq<byte> -> seq<byte>,
    nonce: (nat, seq<byte>) -> nat)

  ghost predicate ValidSuite(e: Suite) {
    && IsPrime(e.q) && Pow256(16) <= e.q < Pow256(32)
    && (forall p: nat :: 0 < p < e.q ==> |e.marshal(p)| == 33 && e.unmarshal(e.marshal(p)) == Some(p))
    && (forall s: seq<byte> :: e.unmarshal(s).Some? ==> 0 < e.unmarshal(s).value < e.q)
    && (forall s: seq<byte> :: |s| == 33 && e.unmarshal(s).Some? ==> e.marshal(e.unmarshal(s).value) == s)
    && (forall s: seq<byte> :: |e.hash(s)| == 32)
    && (forall x: nat, s: seq<byte> :: 0 < e.nonce(x, s) < e.q)
  }

  /** Scalars reach the curve as 32 octets. */
  function Times(e: Suite, scalar: nat, point: nat): nat
    requires e.q > 0
  {
    (ToInt(Fixed(scalar, 32)) * point) % e.q
  }

  function Minus(e: Suite, a: nat, b: nat): nat
    requires e.q > 0
  {
    (a - b) % e.q
  }

  const BASE: nat := 1

  function ParseSecret(e: Suite, secret: seq<byte>): Option<nat> {
    if |secret| == 32 && 0 < ToInt(secret) < e.q then Some(ToInt(secret)) else None
  }

  function ParsePoint(e: Suite, encoded: seq<byte>): Option<nat> {
    if |encoded| == 33 then e.unmarshal(encoded) else None
  }

  function PublicKey(e: Suite, secret: seq<byte>): Option<seq<byte>>
    requires e.q > 0
  {
    match ParseSecret(e, secret)
    case None => None
    case Some(x) => Some(e.marshal(Times(e, x, BASE)))
  }

  // ------------------------------------------------------ encode to curve

  function Candidate(e: Suite, publicKey: seq<byte>, alpha: seq<byte>, counter: byte): seq<byte> {
    [2] + e.hash([SUITE, 1] + publicKey + alpha + [counter, 0])
  }

  /** The first counter from the given one whose hash is a curve point. */
  function TryFrom(e: Suite, publicKey: seq<byte>, alpha: seq<byte>, counter: nat): Option<nat>
    decreases 256 - counter
  {
    if counter > 255 then None
    else if ParsePoint(e, Candidate(e, publicKey, alpha, counter)).Some?
    then ParsePoint(e, Candidate(e, publicKey, alpha, counter))
    else TryFrom(e, publicKey, alpha, counter + 1)
  }

  function EncodeToCurve(e: Suite, publicKey: seq<byte>, alpha: seq<byte>): Option<nat> {
    if ParsePoint(e, publicKey).None? then None else TryFrom(e, publicKey, alpha, 0)
  }

  method EncodeByTrying(e: Suite, publicKey: seq<byte>, alpha: seq<byte>) returns (point: Option<nat>)
    ensures point == EncodeToCurve(e, publicKey, alpha)
  {
    if ParsePoint(e, publicKey).None? {
      return None;
    }
    for counter := 0 to 256
      invariant EncodeToCurve(e, publicKey, alpha) == TryFrom(e, publicKey, alpha, counter)
    {
      point := ParsePoint(e, Candidate(e, publicKey, alpha, counter));
      if point.Some? {
        return;
      }
    }
    point := None;
  }

  /** c is the first counter from the given one whose hash is a point. */
  ghost predicate FirstPoint(e: Suite, publicKey: seq<byte>, alpha: seq<byte>, from: nat, c: byte) {
    && from <= c && ParsePoint(e, Candidate(e, publicKey, alpha, c)).Some?
    && forall b: byte :: from <= b < c ==> ParsePoint(e, Candidate(e, publicKey, alpha, b)).None?
  }

  /** The encoding is the candidate of the least counter that is a point; without
      one there is no encoding. */
  lemma {:induction false} TryFromFindsFirst(e: Suite, publicKey: seq<byte>, alpha: seq<byte>, from: nat)
    ensures var r := TryFrom(e, publicKey, alpha, from);
            r.Some? ==> exists c: byte ::
                          FirstPoint(e, publicKey, alpha, from, c) && ParsePoint(e, Candidate(e, publicKey, alpha, c)) == r
    ensures TryFrom(e, publicKey, alpha, from).None? ==>
              forall c: byte :: c >= from ==> ParsePoint(e, Candidate(e, publicKey, alpha, c)).None?
    decreases 256 - from
  {
    if from <= 255 {
      var b: byte := from;
      var r := TryFrom(e, publicKey, alpha, from);
      if ParsePoint(e, Candidate(e, publicKey, alpha, b)).None? {
        TryFromFindsFirst(e, publicKey, alpha, from + 1);
        if r.Some? {
          var c: byte :| FirstPoint(e, publicKey, alpha, from + 1, c) && ParsePoint(e, Candidate(e, publicKey, alpha, c)) == r;
          assert FirstPoint(e, publicKey, alpha, from, c);
        }
      } else {
        assert FirstPoint(e, publicKey, alpha, from, b);
      }
    }
  }

  // -------------------------------------------------------- prove, verify

  function Points(e: Suite, points: seq<nat>): seq<byte> {
    if points == [] then [] else e.marshal(points[0]) + Points(e, points[1..])
  }

  function Challenge(e: Suite, points: seq<nat>): nat
    requires forall s :: |e.hash(s)| == 32
  {
    ToInt(e.hash([SUITE, 2] + Points(e, points) + [0])[..16])
  }

  datatype Proof = Proof(gamma: nat, c: nat, s: nat)

  function Encode(e: Suite, p: Proof): seq<byte> {
    e.marshal(p.gamma) + Fixed(p.c, 16) + Fixed(p.s, 32)
  }

  function Decode(e: Suite, proof: seq<byte>): Option<Proof> {
    if |proof| != PROOF_LENGTH then None
    else
      var gamma, c, s := ParsePoint(e, proof[..33]), ToInt(proof[33..49]), ToInt(proof[49..]);
      if gamma.None? || s >= e.q then None else Some(Proof(gamma.value, c, s))
  }

  function ProofToHash(e: Suite, proof: seq<byte>): Option<seq<byte>> {
    match Decode(e, proof)
    case None => None
    case Some(p) => Some(e.hash([SUITE, 3] + e.marshal(p.gamma) + [0]))
  }

  datatype Proved = Proved(proof: seq<byte>, output: seq<byte>, publicKey: seq<byte>)

  /** The proof scalars for secret x, nonce k and encoded input h. */
  function MakeProof(e: Suite, x: nat, y: nat, h: nat): Proof
    requires e.q > 0 && forall s :: |e.hash(s)| == 32
  {
    var gamma := Times(e, x, h);
    var k := e.nonce(x, e.marshal(h));
    var c := Challenge(e, [y, h, gamma, Times(e, k, BASE), Times(e, k, h)]);
    Proof(gamma, c, (c * x + k) % e.q)
  }

  ghost function Prove(e: Suite, secret: seq<byte>, alpha: seq<byte>): Option<Proved>
    requires ValidSuite(e)
  {
    match (ParseSecret(e, secret), PublicKey(e, secret))
    case (Some(x), Some(publicKey)) =>
      (match (ParsePoint(e, publicKey), EncodeToCurve(e, publicKey, alpha))
       case (Some(y), Some(h)) =>
         var proof := Encode(e, MakeProof(e, x, y, h));
         (match ProofToHash(e, proof)
          case Some(output) => Some(Proved(proof, output, publicKey))
          case None => None)
       case _ => None)
    case _ => None
  }

  /** Encoding the point at infinity halts the verifier. */
  datatype Verdict = Accepted(output: seq<byte>) | Rejected | Halted

  /** The commitments the verifier recomputes from a proof. */
  function Commitments(e: Suite, y: nat, h: nat, p: Proof): (nat, nat)
    requires e.q > 0
  {
    (Minus(e, Times(e, p.s, BASE), Times(e, p.c, y)), Minus(e, Times(e, p.s, h), Times(e, p.c, p.gamma)))
  }

  ghost function Verify(e: Suite, publicKey: seq<byte>, alpha: seq<byte>, proof: seq<byte>): Verdict
    requires ValidSuite(e)
  {
    match (ParsePoint(e, publicKey), Decode(e, proof), EncodeToCurve(e, publicKey, alpha))
    case (Some(y), Some(p), Some(h)) =>
      var (u, v) := Commitments(e, y, h, p);
      if u == 0 || v == 0 then Halted
      else if Challenge(e, [y, h, p.gamma, u, v]) != p.c then Rejected
      else Accepted(ProofToHash(e, proof).value)
    case _ => Rejected
  }

  // ---------------------------------------------------------- the theorems

  lemma {:induction false} Pow256Monotone(a: nat, b: nat)
    requires a <= b
    ensures Pow256(a) <= Pow256(b)
  {
    Pow256Positive(b);
    if a < b {
      Pow256Positive(b - 1);
      Pow256Monotone(a, b - 1);
    }
  }

  /** Scalars below 2^256 reach the curve intact. */
  lemma TimesIs(e: Suite, scalar: nat, point: nat)
    requires e.q > 0 && scalar < Pow256(32)
    ensures Times(e, scalar, point) == (scalar * point) % e.q
  {
    FixedRoundTrip(scalar, 32);
  }

  /** A scalar that is not a multiple of q moves a point, never to infinity. */
  lemma TimesNonZero(e: Suite, scalar: nat, point: nat)
    requires ValidSuite(e) && 0 < scalar < e.q && 0 < point < e.q
    ensures 0 < Times(e, scalar, point) < e.q
  {
    TimesIs(e, scalar, point);
    NoZeroDivisors(scalar, point, e.q);
  }

  lemma ChallengeBound(e: Suite, points: seq<nat>)
    requires ValidSuite(e)
    ensures Challenge(e, points) < Pow256(16)
  {
    ToIntBound(e.hash([SUITE, 2] + Points(e, points) + [0])[..16]);
  }

  /** Encoding a proof and decoding it gives the proof back. */
  lemma ProofRoundTrip(e: Suite, p: Proof)
    requires ValidSuite(e) && 0 < p.gamma < e.q && p.c < Pow256(16) && p.s < e.q
    ensures |Encode(e, p)| == 81 && Decode(e, Encode(e, p)) == Some(p)
  {
    var proof := Encode(e, p);
    assert proof[..33] == e.marshal(p.gamma);
    assert proof[33..49] == Fixed(p.c, 16);
    assert proof[49..] == Fixed(p.s, 32);
    FixedRoundTrip(p.c, 16);
    FixedRoundTrip(p.s, 32);
  }

  /** Every point has one compressed form, so what a proof decodes from is its
      encoding: no second string stands for the same proof. */
  lemma DecodeThenEncode(e: Suite, proof: seq<byte>)
    requires ValidSuite(e) && Decode(e, proof).Some?
    ensures Encode(e, Decode(e, proof).value) == proof
  {
    ToIntRoundTrip(proof[33..49]);
    ToIntRoundTrip(proof[49..]);
    assert proof == proof[..33] + proof[33..49] + proof[49..];
  }

  /** The verifier's subtraction cancels the secret from the response. */
  lemma ResponseCancels(q: nat, c: nat, x: nat, k: nat, s: nat, h: nat, gamma: nat)
    requires q > 0 && s == (c * x + k) % q && Cong(gamma, x * h, q)
    ensures ((s * h) % q - (c * gamma) % q) % q == (k * h) % q
  {
    CongReduce(c * x + k, q);
    CongMul(h, s, c * x + k, q);
    CongReduce(s * h, q);
    assert h * s == s * h && h * (c * x + k) == c * (x * h) + k * h by {
      assert h * (c * x) == c * (x * h);
    }
    CongTrans((s * h) % q, s * h, c * (x * h) + k * h, q);
    CongMul(c, gamma, x * h, q);
    CongReduce(c * gamma, q);
    CongTrans((c * gamma) % q, c * gamma, c * (x * h), q);
    CongSub((s * h) % q, c * (x * h) + k * h, (c * gamma) % q, c * (x * h), q);
    CongMod((s * h) % q - (c * gamma) % q, k * h, q);
  }

  /** The commitments as plain arithmetic modulo q. */
  lemma CommitmentsAre(e: Suite, y: nat, h: nat, p: Proof)
    requires e.q > 0 && p.c < Pow256(32) && p.s < Pow256(32)
    ensures Commitments(e, y, h, p)
            == (((p.s * BASE) % e.q - (p.c * y) % e.q) % e.q, ((p.s * h) % e.q - (p.c * p.gamma) % e.q) % e.q)
  {
    TimesIs(e, p.s, BASE);
    TimesIs(e, p.s, h);
    TimesIs(e, p.c, y);
    TimesIs(e, p.c, p.gamma);
  }

  /** The verifier halts on exactly the well-formed proofs whose response is the
      challenge times the public key, or whose response times the encoded input is
      the challenge times gamma: then a commitment is the point at infinity. */
  lemma HaltsExactly(e: Suite, publicKey: seq<byte>, alpha: seq<byte>, proof: seq<byte>)
    requires ValidSuite(e)
    ensures Verify(e, publicKey, alpha, proof) == Halted <==>
              && ParsePoint(e, publicKey).Some? && Decode(e, proof).Some? && EncodeToCurve(e, publicKey, alpha).Some?
              && var (y, h, p) := (ParsePoint(e, publicKey).value, EncodeToCurve(e, publicKey, alpha).value, Decode(e, proof).value);
              (p.s == (p.c * y) % e.q || (p.s * h) % e.q == (p.c * p.gamma) % e.q)
  {
    hide Challenge, ProofToHash, EncodeToCurve, Commitments;
    var y, d, h := ParsePoint(e, publicKey), Decode(e, proof), EncodeToCurve(e, publicKey, alpha);
    if y.Some? && d.Some? && h.Some? {
      DecodedBounds(e, proof);
      InfinityExactly(e, y.value, h.value, d.value);
    }
  }

  /** The first 16 octets of the hash of the suite, a domain octet, five points
      and a closing octet. */
  function ChallengeOctets(e: Suite, y: nat, h: nat, gamma: nat, u: nat, v: nat): seq<byte>
    requires forall s :: |e.hash(s)| == 32
  {
    e.hash([1, 2] + e.marshal(y) + e.marshal(h) + e.marshal(gamma) + e.marshal(u) + e.marshal(v) + [0])[..16]
  }

  lemma FivePoints(e: Suite, y: nat, h: nat, gamma: nat, u: nat, v: nat)
    ensures Points(e, [y, h, gamma, u, v]) == e.marshal(y) + e.marshal(h) + e.marshal(gamma) + e.marshal(u) + e.marshal(v)
  {
    var p0 := [y, h, gamma, u, v];
    var p1, p2, p3, p4 := [h, gamma, u, v], [gamma, u, v], [u, v], [v];
    assert p0[1..] == p1 && p1[1..] == p2 && p2[1..] == p3 && p3[1..] == p4 && p4[1..] == [];
    assert Points(e, p4) == e.marshal(v);
    assert Points(e, p2) == e.marshal(gamma) + (e.marshal(u) + e.marshal(v));
  }

  lemma ChallengeIs(e: Suite, y: nat, h: nat, gamma: nat, u: nat, v: nat)
    requires forall s :: |e.hash(s)| == 32
    ensures Challenge(e, [y, h, gamma, u, v]) == ToInt(ChallengeOctets(e, y, h, gamma, u, v))
  {
    hide ToInt, Points;
    FivePoints(e, y, h, gamma, u, v);
    var points := e.marshal(y) + e.marshal(h) + e.marshal(gamma) + e.marshal(u) + e.marshal(v);
    assert [SUITE, 2] + points + [0]
        == [1, 2] + e.marshal(y) + e.marshal(h) + e.marshal(gamma) + e.marshal(u) + e.marshal(v) + [0];
  }

  /** Neither commitment is infinity and the challenge taken of both is the proof's. */
  ghost predicate Answers(e: Suite, y: nat, h: nat, p: Proof)
    requires ValidSuite(e)
  {
    var u, v := (p.s - p.c * y) % e.q, (p.s * h - p.c * p.gamma) % e.q;
    u != 0 && v != 0 && ToInt(ChallengeOctets(e, y, h, p.gamma, u, v)) == p.c
  }

  lemma DifferenceOfResidues(a: int, b: int, q: int)
    requires 0 < q
    ensures (a % q - b % q) % q == (a - b) % q
  {
    CongReduce(a, q);
    CongReduce(b, q);
    CongSub(a % q, a, b % q, b, q);
    CongMod(a % q - b % q, a - b, q);
  }

  /** The verifier accepts exactly the well-formed proofs whose commitments
      s - c y and s h - c gamma, modulo the order, are not infinity and hash with
      key, input and gamma to the proof's own challenge; the output is then the
      hash of gamma, which no prover can choose otherwise. */
  lemma AcceptsExactly(e: Suite, publicKey: seq<byte>, alpha: seq<byte>, proof: seq<byte>, output: seq<byte>)
    requires ValidSuite(e)
    ensures Verify(e, publicKey, alpha, proof) == Accepted(output) <==>
              && ParsePoint(e, publicKey).Some? && Decode(e, proof).Some? && EncodeToCurve(e, publicKey, alpha).Some?
              && Answers(e, ParsePoint(e, publicKey).value, EncodeToCurve(e, publicKey, alpha).value, Decode(e, proof).value)
              && output == e.hash([1, 3] + e.marshal(Decode(e, proof).value.gamma) + [0])
  {
    hide Challenge, EncodeToCurve, Commitments, ToInt, ChallengeOctets, Decode, ParsePoint, Pow256;
    var y, d, h := ParsePoint(e, publicKey), Decode(e, proof), EncodeToCurve(e, publicKey, alpha);
    if y.Some? && d.Some? && h.Some? {
      var p := d.value;
      DecodedBounds(e, proof);
      CommitmentsModulo(e, y.value, h.value, p);
      ChallengeIs(e, y.value, h.value, p.gamma, (p.s - p.c * y.value) % e.q, (p.s * h.value - p.c * p.gamma) % e.q);
    }
  }

  lemma CommitmentsModulo(e: Suite, y: nat, h: nat, p: Proof)
    requires e.q > 0 && p.c < Pow256(32) && p.s < Pow256(32)
    ensures Commitments(e, y, h, p) == ((p.s - p.c * y) % e.q, (p.s * h - p.c * p.gamma) % e.q)
  {
    hide Times, Pow256, Commitments;
    CommitmentsAre(e, y, h, p);
    DifferenceOfResidues(p.s * BASE, p.c * y, e.q);
    DifferenceOfResidues(p.s * h, p.c * p.gamma, e.q);
  }

  lemma DecodedBounds(e: Suite, proof: seq<byte>)
    requires ValidSuite(e) && Decode(e, proof).Some?
    ensures Decode(e, proof).value.c < Pow256(32) && Decode(e, proof).value.s < e.q < Pow256(32)
  {
    ToIntBound(proof[33..49]);
    Pow256Monotone(16, 32);
  }

  lemma InfinityExactly(e: Suite, y: nat, h: nat, p: Proof)
    requires e.q > 0 && p.c < Pow256(32) && p.s < e.q < Pow256(32)
    ensures var (u, v) := Commitments(e, y, h, p);
            && (u == 0 <==> p.s == (p.c * y) % e.q)
            && (v == 0 <==> (p.s * h) % e.q == (p.c * p.gamma) % e.q)
  {
    hide Times, Pow256, Commitments;
    CommitmentsAre(e, y, h, p);
    ScalarsMeet(e.q, p.s, BASE, p.c, y);
    ScalarsMeet(e.q, p.s, h, p.c, p.gamma);
    OwnResidue(p.s, e.q);
  }

  lemma OwnResidue(s: nat, q: nat)
    requires s < q
    ensures (s * 1) % q == s
  {
  }

  lemma ScalarsMeet(q: nat, s: nat, h: nat, c: nat, g: nat)
    requires q > 0
    ensures ((s * h) % q - (c * g) % q) % q == 0 <==> (s * h) % q == (c * g) % q
  {
    DifferenceZero(q, (s * h) % q, (c * g) % q);
  }

  lemma DifferenceZero(q: nat, a: nat, b: nat)
    requires a < q && b < q
    ensures (a - b) % q == 0 <==> a == b
  {
    if a < b {
      assert (a - b) % q == a - b + q;
    } else {
      assert (a - b) % q == a - b;
    }
  }

  lemma CommitmentsRecovered(e: Suite, x: nat, y: nat, h: nat)
    requires ValidSuite(e) && 0 < x < e.q && y == Times(e, x, BASE) && 0 < h < e.q
    ensures var k := e.nonce(x, e.marshal(h));
            Commitments(e, y, h, MakeProof(e, x, y, h)) == (Times(e, k, BASE), Times(e, k, h))
  {
    hide Times, Pow256, Commitments;
    var p, k := MakeProof(e, x, y, h), e.nonce(x, e.marshal(h));
    ChallengeBound(e, [y, h, p.gamma, Times(e, k, BASE), Times(e, k, h)]);
    CommitmentsAre(e, y, h, p);
    TimesIs(e, k, BASE);
    TimesIs(e, k, h);
    TimesIs(e, x, BASE);
    TimesIs(e, x, h);
    CongReduce(x * BASE, e.q);
    CongReduce(x * h, e.q);
    ResponseCancels(e.q, p.c, x, k, p.s, BASE, y);
    ResponseCancels(e.q, p.c, x, k, p.s, h, p.gamma);
  }

  lemma PublicKeyParses(e: Suite, secret: seq<byte>)
    requires ValidSuite(e) && ParseSecret(e, secret).Some?
    ensures var x := ParseSecret(e, secret).value; var y := Times(e, x, BASE);
            && y == x && PublicKey(e, secret).Some?
            && ParsePoint(e, PublicKey(e, secret).value) == Some(y)
  {
    var x := ParseSecret(e, secret).value;
    TimesIs(e, x, BASE);
    ModOf(x, 0, x, e.q);
  }

  lemma {:induction false} TryFromIsPoint(e: Suite, publicKey: seq<byte>, alpha: seq<byte>, from: nat)
    requires ValidSuite(e) && TryFrom(e, publicKey, alpha, from).Some?
    ensures 0 < TryFrom(e, publicKey, alpha, from).value < e.q
    decreases 256 - from
  {
    if ParsePoint(e, Candidate(e, publicKey, alpha, from)).None? {
      TryFromIsPoint(e, publicKey, alpha, from + 1);
    }
  }

  /** Completeness: for every valid secret and every input that encodes to the
      curve, proving succeeds; the proof has 81 octets and decodes to the point
      and scalars that made it; and the verifier accepts it with the prover's
      own output. */
  lemma ProofsVerify(e: Suite, secret: seq<byte>, alpha: seq<byte>)
    requires ValidSuite(e) && ParseSecret(e, secret).Some?
    requires EncodeToCurve(e, PublicKey(e, secret).value, alpha).Some?
    ensures var x := ParseSecret(e, secret).value; var r := Prove(e, secret, alpha);
            var h := EncodeToCurve(e, PublicKey(e, secret).value, alpha).value;
            && r.Some? && |r.value.proof| == 81 && PublicKey(e, secret) == Some(r.value.publicKey)
            && Decode(e, r.value.proof) == Some(MakeProof(e, x, x, h))
            && Verify(e, r.value.publicKey, alpha, r.value.proof) == Accepted(r.value.output)
  {
    var x, publicKey := ParseSecret(e, secret).value, PublicKey(e, secret).value;
    PublicKeyParses(e, secret);
    var y, h := Times(e, x, BASE), EncodeToCurve(e, publicKey, alpha).value;
    TryFromIsPoint(e, publicKey, alpha, 0);
    var p, k := MakeProof(e, x, y, h), e.nonce(x, e.marshal(h));
    TimesNonZero(e, x, h);
    TimesNonZero(e, k, BASE);
    TimesNonZero(e, k, h);
    ChallengeBound(e, [y, h, p.gamma, Times(e, k, BASE), Times(e, k, h)]);
    ProofRoundTrip(e, p);
    CommitmentsRecovered(e, x, y, h);
  }

  /** Proving fails only for a secret outside the field or an input no counter
      encodes. */
  lemma ProveFailsOnlyWhen(e: Suite, secret: seq<byte>, alpha: seq<byte>)
    requires ValidSuite(e)
    ensures Prove(e, secret, alpha).None? <==>
              ParseSecret(e, secret).None? || EncodeToCurve(e, PublicKey(e, secret).value, alpha).None?
  {
    if ParseSecret(e, secret).Some? && EncodeToCurve(e, PublicKey(e, secret).value, alpha).Some? {
      ProofsVerify(e, secret, alpha);
    }
  }

  /** Special soundness: two accepting answers to different challenges on the
      same commitments force gamma to be the honest one, the secret of y times h,
      so the output of an accepted proof cannot be chosen. */
  lemma TwoAnswersFixGamma(e: Suite, y: nat, h: nat, gamma: nat, c1: nat, s1: nat, c2: nat, s2: nat)
    requires ValidSuite(e) && 0 < y < e.q && 0 < h < e.q && gamma < e.q
    requires s1 < e.q && s2 < e.q && c2 < c1 < Pow256(16)
    requires Commitments(e, y, h, Proof(gamma, c1, s1)) == Commitments(e, y, h, Proof(gamma, c2, s2))
    ensures gamma == Times(e, y, h)
  {
    hide Times, Pow256, Commitments;
    CommitmentsAre(e, y, h, Proof(gamma, c1, s1));
    CommitmentsAre(e, y, h, Proof(gamma, c2, s2));
    TimesIs(e, y, h);
    FixedGamma(e.q, y, h, gamma, c1, s1, c2, s2);
    ModOf(gamma, 0, gamma, e.q);
  }

  /** (s1 - s2) is (c1 - c2) y, and (s1 - s2) h is (c1 - c2) gamma. */
  lemma FixedGamma(q: nat, y: nat, h: nat, gamma: nat, c1: nat, s1: nat, c2: nat, s2: nat)
    requires IsPrime(q) && c2 < c1 < q
    requires ((s1 * 1) % q - (c1 * y) % q) % q == ((s2 * 1) % q - (c2 * y) % q) % q
    requires ((s1 * h) % q - (c1 * gamma) % q) % q == ((s2 * h) % q - (c2 * gamma) % q) % q
    ensures gamma % q == (y * h) % q
  {
    SameCommitment(q, s1, 1, c1, y, s2, c2);
    SameCommitment(q, s1, h, c1, gamma, s2, c2);
    var d, t := c1 - c2, s1 - s2;
    CongMul(h, t * 1, d * y, q);
    assert h * (t * 1) == t * h && h * (d * y) == d * (y * h);
    CongSym(t * h, d * gamma, q);
    CongTrans(d * gamma, t * h, d * (y * h), q);
    CancelFactor(q, d, gamma, y * h);
    CongMod(gamma, y * h, q);
  }

  lemma CongSym(a: int, b: int, q: nat)
    requires q > 0 && Cong(a, b, q)
    ensures Cong(b, a, q)
  {
    CongMod(a, b, q);
    CongMod(b, a, q);
  }

  lemma SameCommitment(q: nat, s1: nat, h: nat, c1: nat, g: nat, s2: nat, c2: nat)
    requires q > 0
    requires ((s1 * h) % q - (c1 * g) % q) % q == ((s2 * h) % q - (c2 * g) % q) % q
    ensures Cong((s1 - s2) * h, (c1 - c2) * g, q)
  {
    CongReduce(s1 * h, q);
    CongReduce(c1 * g, q);
    CongReduce(s2 * h, q);
    CongReduce(c2 * g, q);
    CongSub((s1 * h) % q, s1 * h, (c1 * g) % q, c1 * g, q);
    CongSub((s2 * h) % q, s2 * h, (c2 * g) % q, c2 * g, q);
    var a, b := (s1 * h) % q - (c1 * g) % q, (s2 * h) % q - (c2 * g) % q;
    CongMod(a, b, q);
    CongSym(a, s1 * h - c1 * g, q);
    CongTrans(s1 * h - c1 * g, a, b, q);
    CongTrans(s1 * h - c1 * g, b, s2 * h - c2 * g, q);
    assert (s1 - s2) * h - (c1 - c2) * g == (s1 * h - c1 * g) - (s2 * h - c2 * g) by {
      assert (s1 - s2) * h == s1 * h - s2 * h;
      assert (c1 - c2) * g == c1 * g - c2 * g;
    }
  }

  /** A factor below the prime cancels. */
  lemma CancelFactor(q: nat, d: nat, a: int, b: int)
    requires IsPrime(q) && 0 < d < q && Cong(d * a, d * b, q)
    ensures Cong(a, b, q)
  {
    var r := (a - b) % q;
    if r != 0 {
      NoZeroDivisors(d, r, q);
      CongReduce(a - b, q);
      CongMul(d, r, a - b, q);
      assert d * (a - b) == d * a - d * b;
      CongMod(d * r, d * (a - b), q);
    }
  }
}
