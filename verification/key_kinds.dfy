/** pkg/certificate/keyType.go and ellipticCurve.go: reading key types and curves from text. */
module KeyKinds {
  import opened Wrappers
  import opened PolicyModel

  function UpperChar(c: char): char {
    if 'a' <= c <= 'z' then (c as int - 'a' as int + 'A' as int) as char else c
  }

  function ToUpper(s: string): string {
    seq(|s|, k requires 0 <= k < |s| => UpperChar(s[k]))
  }

  /** EllipticCurve.Set never fails: an unknown name sets the default curve. */
  function CurveOf(name: string): Curve {
    match ToUpper(name)
    case "P521" => P521
    case "P-521" => P521
    case "P384" => P384
    case "P-384" => P384
    case "ED25519" => CurveED25519
    case _ => P256
  }

  function CurveName(c: Curve): string {
    match c
    case P521 => "P521"
    case P384 => "P384"
    case P256 => "P256"
    case CurveED25519 => "ED25519"
    case NotSet => ""
  }

  /** KeyType.Set; None is its error. */
  function KindOf(value: string, curve: string): Option<KeyKind> {
    match ToUpper(value)
    case "RSA" => Some(RSA)
    case "ECDSA" => Some(if CurveOf(curve) == CurveED25519 then ED25519 else ECDSA)
    case "EC" => Some(if CurveOf(curve) == CurveED25519 then ED25519 else ECDSA)
    case "ECC" => Some(if CurveOf(curve) == CurveED25519 then ED25519 else ECDSA)
    case _ => None
  }

  /** The two key types the compiler emits are read back as RSA and ECDSA. */
  lemma CompiledKinds()
    ensures KindOf("RSA", "") == Some(RSA)
    ensures KindOf("EC", "") == Some(ECDSA)
  {
    assert ToUpper("RSA") == "RSA";
    assert ToUpper("EC") == "EC";
    assert ToUpper("") == "";
  }

  // ---------- the names that are understood ----------

  /** The same text but for the case of ASCII letters; `upper` has none in lower case. */
  predicate EqualFold(s: string, upper: string) {
    && |s| == |upper|
    && forall k | 0 <= k < |s| ::
         s[k] == upper[k] || ('A' <= upper[k] <= 'Z' && s[k] as int == upper[k] as int + 32)
  }

  lemma FoldIff(s: string, upper: string)
    requires forall k | 0 <= k < |upper| :: !('a' <= upper[k] <= 'z')
    ensures ToUpper(s) == upper <==> EqualFold(s, upper)
  {
    assert ToUpper(s) == upper ==> forall k | 0 <= k < |s| :: ToUpper(s)[k] == upper[k];
    assert EqualFold(s, upper) ==> forall k | 0 <= k < |s| :: ToUpper(s)[k] == upper[k];
  }

  /** Curves are named with or without a hyphen, in any case; every other name means P256. */
  lemma CurveOfIff(name: string)
    ensures CurveOf(name) == P521 <==> EqualFold(name, "P521") || EqualFold(name, "P-521")
    ensures CurveOf(name) == P384 <==> EqualFold(name, "P384") || EqualFold(name, "P-384")
    ensures CurveOf(name) == CurveED25519 <==> EqualFold(name, "ED25519")
    ensures CurveOf(name) != NotSet
  {
    FoldIff(name, "P521");
    FoldIff(name, "P-521");
    FoldIff(name, "P384");
    FoldIff(name, "P-384");
    FoldIff(name, "ED25519");
    NamesDiffer();
  }

  lemma NamesDiffer()
    ensures "P521" != "P384" && "P-521" != "P-384" && "P521" != "P-384" && "P-521" != "P384"
    ensures "ED25519" !in {"P521", "P-521", "P384", "P-384"}
  {
    assert "P521"[1] == '5' && "P384"[1] == '3' && "P-521"[2] == '5' && "P-384"[2] == '3';
    assert |"ED25519"| == 7 && |"P-521"| == |"P-384"| == 5;
  }

  /** A printed curve is read back. */
  lemma CurveNameReadBack(c: Curve)
    requires c != NotSet
    ensures CurveOf(CurveName(c)) == c
  {
    CurveOfIff(CurveName(c));
    assert "P256"[1] == '2' && "P521"[1] == '5' && "P384"[1] == '3' && |"P-521"| == |"P-384"| == 5;
  }

  /** Key types: RSA, or three names for elliptic keys, which the curve tells apart; anything else is an
      error. */
  lemma KindOfIff(value: string, curve: string)
    ensures KindOf(value, curve) == Some(RSA) <==> EqualFold(value, "RSA")
    ensures KindOf(value, curve) == Some(ED25519) <==>
              (EqualFold(value, "EC") || EqualFold(value, "ECC") || EqualFold(value, "ECDSA"))
              && EqualFold(curve, "ED25519")
    ensures KindOf(value, curve) == Some(ECDSA) <==>
              (EqualFold(value, "EC") || EqualFold(value, "ECC") || EqualFold(value, "ECDSA"))
              && !EqualFold(curve, "ED25519")
  {
    FoldIff(value, "RSA");
    FoldIff(value, "EC");
    FoldIff(value, "ECC");
    FoldIff(value, "ECDSA");
    CurveOfIff(curve);
    assert "RSA"[0] == 'R' && "EC"[0] == "ECC"[0] == "ECDSA"[0] == 'E';
  }
}
