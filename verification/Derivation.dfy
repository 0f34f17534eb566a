/** Derivation of extended keys (BIP-32, "Child key derivation (CKD) functions") over any group with
    the law that points add as their secrets do. */
module Derivation {
  import opened Types
  import opened Modular

  type Point = nat

  datatype Index = Soft(tag: Bytes) | Hard(tag: Bytes)

  datatype DerivationError = InvalidHardenedUse | InvalidPoint | MissingIndex

  /** `Panic` is where the code would stop on a failed expectation. */
  datatype Outcome<+T> = Ok(value: T) | Err(error: DerivationError) | Panic

  /** The curve and the keyed hash. Points on the wire are raw bytes; `add` has no result at infinity. */
  datatype Curve = Curve(
    order: nat,
    point: nat -> Point,
    add: (Point, Point) -> Option<Point>,
    raw: Point -> Bytes,
    parse: Bytes -> Option<Point>,
    compress: Point -> Bytes,
    hmac: (H256, Bytes) -> (nat, H256),
    secretBytes: nat -> Bytes)

  predicate ValidSecret(c: Curve, k: nat) {
    0 < k < c.order
  }

  /** Points add as their secrets do, with no point for a sum of zero. */
  ghost predicate AddLaw(c: Curve, a: nat, b: nat)
    requires c.order > 0
  {
    var sum := Rem(a + b, c.order);
    c.add(c.point(a), c.point(b)) == if sum == 0 then None else Some(c.point(sum))
  }

  ghost predicate GroupLaw(c: Curve) {
    && c.order > 0
    && (forall a: nat, b: nat :: ValidSecret(c, a) && ValidSecret(c, b) ==> AddLaw(c, a, b))
    && (forall a: nat :: ValidSecret(c, a) ==> c.parse(c.raw(c.point(a))) == Some(c.point(a)))
  }

  datatype ExtendedSecret = ExtendedSecret(secret: nat, chainCode: H256)
  datatype ExtendedPublic = ExtendedPublic(public: Bytes, chainCode: H256)

  /** The remainder as the code computes it: by dividing, multiplying and subtracting. */
  function Modulo(u1: nat, u2: nat): (r: int)
    requires u2 > 0
  {
    u1 - Quot(u1, u2) * u2
  }

  lemma ModuloIsRemainder(u1: nat, u2: nat)
    requires u2 > 0
    ensures Modulo(u1, u2) == Rem(u1, u2)
  {
    QuotRem(u1, u2);
  }

  function PrivateAdd(c: Curve, k1: nat, k2: nat): (r: nat)
    requires c.order > 0
    ensures r == Rem(k1 + k2, c.order)
  {
    ModuloIsRemainder(k1 + k2, c.order);
    Modulo(k1 + k2, c.order)
  }

  /** What is hashed for a soft step: the compressed parent point and the label. */
  function SoftData(c: Curve, parent: Point, tag: Bytes): Bytes {
    c.compress(parent) + tag
  }

  /** Deriving a secret. Soft steps hash the parent's point, hard ones the parent's secret; both expect a
      valid secret. */
  function DeriveSecret(c: Curve, s: ExtendedSecret, index: Index): Outcome<ExtendedSecret>
    requires c.order > 0
  {
    match index
    case Soft(tag) =>
      if !ValidSecret(c, s.secret) then Panic
      else
        var (hmacKey, next) := c.hmac(s.chainCode, SoftData(c, c.point(s.secret), tag));
        Ok(ExtendedSecret(PrivateAdd(c, hmacKey, s.secret), next))
    case Hard(tag) =>
      var (hmacKey, next) := c.hmac(s.chainCode, [0] + c.secretBytes(s.secret) + tag);
      Ok(ExtendedSecret(PrivateAdd(c, hmacKey, s.secret), next))
  }

  /** Deriving a public key, without any secret. */
  function DerivePublic(c: Curve, p: ExtendedPublic, index: Index): Outcome<ExtendedPublic>
    requires c.order > 0
  {
    if index.Hard? then Err(InvalidHardenedUse)
    else
      match c.parse(p.public)
      case None => Err(InvalidPoint)
      case Some(parent) =>
        var (newPrivate, next) := c.hmac(p.chainCode, SoftData(c, parent, index.tag));
        if c.order <= newPrivate then Err(MissingIndex)
        else if !ValidSecret(c, newPrivate) then Panic
        else
          match c.add(c.point(newPrivate), parent)
          case None => Panic
          case Some(child) => Ok(ExtendedPublic(c.raw(child), next))
  }

  /** The public side of an extended secret. */
  function FromSecret(c: Curve, s: ExtendedSecret): Outcome<ExtendedPublic> {
    if ValidSecret(c, s.secret) then Ok(ExtendedPublic(c.raw(c.point(s.secret)), s.chainCode)) else Err(InvalidPoint)
  }

  /** What BIP-32 has hashed with the chain code: for a soft step the compressed point and the label, for a hard one a
      zero byte, the secret and the label. */
  function Hashed(c: Curve, s: ExtendedSecret, index: Index): (nat, H256) {
    c.hmac(s.chainCode, if index.Soft? then c.compress(c.point(s.secret)) + index.tag
                        else [0] + c.secretBytes(s.secret) + index.tag)
  }

  /** A child's secret is below the order and differs from its parent's by the first half of the hash, up to multiples
      of the order; its chain code is the second half. A soft step stops on an invalid secret, and nothing else does. */
  lemma ChildExactly(c: Curve, s: ExtendedSecret, index: Index)
    requires c.order > 0
    ensures var child := DeriveSecret(c, s, index);
            && (child.Panic? <==> index.Soft? && !(0 < s.secret < c.order)) && !child.Err?
            && (child.Ok? ==>
                  && child.value.chainCode == Hashed(c, s, index).1
                  && child.value.secret < c.order
                  && child.value.secret + Quot(Hashed(c, s, index).0 + s.secret, c.order) * c.order ==
                     Hashed(c, s, index).0 + s.secret)
  {
    QuotRem(Hashed(c, s, index).0 + s.secret, c.order);
  }

  /** A hard step does not go by points at all, nor a soft one by the bytes of the secret. */
  lemma StepsApart(c: Curve, d: Curve, s: ExtendedSecret, tag: Bytes)
    requires c.order == d.order > 0 && c.hmac == d.hmac
    ensures c.secretBytes == d.secretBytes ==> DeriveSecret(c, s, Hard(tag)) == DeriveSecret(d, s, Hard(tag))
    ensures c.point == d.point && c.compress == d.compress ==>
              DeriveSecret(c, s, Soft(tag)) == DeriveSecret(d, s, Soft(tag))
  {
  }

  /** A public key is derived by adding the point of the first half of the hash to the parent's point; hard steps and
      unreadable points are refused. */
  lemma PublicExactly(c: Curve, p: ExtendedPublic, index: Index)
    requires c.order > 0
    ensures var child := DerivePublic(c, p, index);
            && (child == Err(InvalidHardenedUse) <==> index.Hard?)
            && (child == Err(InvalidPoint) <==> index.Soft? && c.parse(p.public).None?)
            && (child.Ok? ==>
                  && index.Soft? && c.parse(p.public).Some?
                  && var (tweak, next) := c.hmac(p.chainCode, c.compress(c.parse(p.public).value) + index.tag);
                     && 0 < tweak < c.order && child.value.chainCode == next
                     && c.add(c.point(tweak), c.parse(p.public).value).Some?
                     && child.value.public == c.raw(c.add(c.point(tweak), c.parse(p.public).value).value))
  {
  }

  /** The number that a soft step adds to the secret. */
  function Tweak(c: Curve, s: ExtendedSecret, tag: Bytes): nat {
    c.hmac(s.chainCode, SoftData(c, c.point(s.secret), tag)).0
  }

  /** One soft step commutes with taking the point whenever public derivation succeeds, and it succeeds
      exactly when the tweak is a valid secret that does not cancel the parent. */
  lemma StepCommutes(c: Curve, s: ExtendedSecret, tag: Bytes)
    requires GroupLaw(c) && ValidSecret(c, s.secret)
    ensures var parent := FromSecret(c, s).value;
            var t := Tweak(c, s, tag);
            var public := DerivePublic(c, parent, Soft(tag));
            && (public.Ok? <==> ValidSecret(c, t) && Rem(t + s.secret, c.order) != 0)
            && (public.Panic? <==> t == 0 || (t < c.order && Rem(t + s.secret, c.order) == 0))
            && (public == Err(MissingIndex) <==> c.order <= t)
            && (public.Ok? ==>
                  var child := DeriveSecret(c, s, Soft(tag)).value;
                  ValidSecret(c, child.secret) && FromSecret(c, child) == public)
  {
    var t := Tweak(c, s, tag);
    if ValidSecret(c, t) {
      assert AddLaw(c, t, s.secret);
    }
  }

  function DeriveSecretPath(c: Curve, s: ExtendedSecret, path: seq<Index>): Outcome<ExtendedSecret>
    requires c.order > 0
  {
    if path == [] then Ok(s)
    else
      match DeriveSecretPath(c, s, path[..|path| - 1])
      case Ok(t) => DeriveSecret(c, t, path[|path| - 1])
      case Err(e) => Err(e)
      case Panic => Panic
  }

  function DerivePublicPath(c: Curve, p: ExtendedPublic, path: seq<Index>): Outcome<ExtendedPublic>
    requires c.order > 0
  {
    if path == [] then Ok(p)
    else
      match DerivePublicPath(c, p, path[..|path| - 1])
      case Ok(q) => DerivePublic(c, q, path[|path| - 1])
      case Err(e) => Err(e)
      case Panic => Panic
  }

  /** For every path on which public derivation succeeds, deriving the secret and then taking its point
      gives the same public key and chain code. The path is then soft throughout. */
  lemma {:induction false} PathCommutes(c: Curve, s: ExtendedSecret, path: seq<Index>)
    requires GroupLaw(c) && ValidSecret(c, s.secret)
    requires DerivePublicPath(c, FromSecret(c, s).value, path).Ok?
    ensures forall i :: 0 <= i < |path| ==> path[i].Soft?
    ensures var secret := DeriveSecretPath(c, s, path);
            && secret.Ok?
            && ValidSecret(c, secret.value.secret)
            && FromSecret(c, secret.value) == DerivePublicPath(c, FromSecret(c, s).value, path)
  {
    if path != [] {
      var last := |path| - 1;
      PathCommutes(c, s, path[..last]);
      var t := DeriveSecretPath(c, s, path[..last]).value;
      assert path[last].Soft?;
      StepCommutes(c, t, path[last].tag);
    }
  }

  /** A tweak at or above the order is where the two sides part: the secret is derived all the same,
      and the public key is not. */
  lemma MissingIndexParts(c: Curve, s: ExtendedSecret, tag: Bytes)
    requires GroupLaw(c) && ValidSecret(c, s.secret) && c.order <= Tweak(c, s, tag)
    ensures DerivePublic(c, FromSecret(c, s).value, Soft(tag)) == Err(MissingIndex)
    ensures DeriveSecret(c, s, Soft(tag)).Ok?
  {
    StepCommutes(c, s, tag);
  }
}
