/** What the key check of pkg/endpoint/endpoint.go accepts, against what its documentation says of the
    list of allowed key configurations: that at least one of them lists the key. */
module KeyCheck {
  import opened PolicyModel
  import opened KeyKinds
  import opened Endpoint

  /** The documented meaning of one entry. */
  predicate Lists(entry: KeyConfig, kind: KeyKind, bits: int, curve: string) {
    match kind
    case RSA => entry.kind == RSA && bits in entry.sizes
    case ECDSA => entry.kind == ECDSA && CurveOf(curve) in entry.curves
    case ED25519 =>
      (entry.kind == ED25519 && (curve == "" || curve == "ED25519"))
      || (entry.kind == ECDSA && CurveED25519 in entry.curves)
  }

  /** The documented meaning of the list. */
  predicate SomeEntryLists(allowed: seq<KeyConfig>, kind: KeyKind, bits: int, curve: string) {
    exists k | 0 <= k < |allowed| :: Lists(allowed[k], kind, bits, curve)
  }

  /** An entry that ends the search for a key of this type, whatever the answer. */
  predicate Settles(entry: KeyConfig, kind: KeyKind) {
    if kind == ED25519 then entry.kind == ECDSA else entry.kind == kind
  }

  /** The loop of checkKey. */
  method FindKey(kind: KeyKind, bits: int, curve: string, allowed: seq<KeyConfig>) returns (valid: bool)
    ensures valid == CheckKey(kind, bits, curve, allowed)
  {
    for i := 0 to |allowed|
      invariant CheckKey(kind, bits, curve, allowed) == CheckKey(kind, bits, curve, allowed[i..])
    {
      var allowedKey := allowed[i];
      assert allowed[i..][1..] == allowed[i + 1..];
      if allowedKey.kind == kind {
        match kind {
          case RSA => return bits in allowedKey.sizes;
          case ECDSA => return CurveOf(curve) in allowedKey.curves;
          case ED25519 =>
            if curve == "" || curve == "ED25519" {
              return true;
            }
        }
      } else if kind == ED25519 && allowedKey.kind == ECDSA {
        return CurveED25519 in allowedKey.curves;
      }
    }
    return false;
  }

  /** For every list: a key is accepted exactly when an entry lists it and no entry before that one
      settles its type. */
  lemma {:induction false} AcceptedIff(kind: KeyKind, bits: int, curve: string, allowed: seq<KeyConfig>)
    ensures CheckKey(kind, bits, curve, allowed)
        <==> exists k | 0 <= k < |allowed| ::
               Lists(allowed[k], kind, bits, curve) && forall j | 0 <= j < k :: !Settles(allowed[j], kind)
  {
    if allowed != [] {
      var first, rest := allowed[0], allowed[1..];
      AcceptedIff(kind, bits, curve, rest);
      if !Lists(first, kind, bits, curve) && !Settles(first, kind) {
        if CheckKey(kind, bits, curve, rest) {
          var k :| 0 <= k < |rest| && Lists(rest[k], kind, bits, curve)
                   && forall j | 0 <= j < k :: !Settles(rest[j], kind);
          assert Lists(allowed[k + 1], kind, bits, curve);
          assert forall j | 0 <= j < k + 1 :: j > 0 ==> allowed[j] == rest[j - 1];
        }
        if k :| 0 <= k < |allowed| && Lists(allowed[k], kind, bits, curve)
                && forall j | 0 <= j < k :: !Settles(allowed[j], kind) {
          assert rest[k - 1] == allowed[k];
          assert forall j | 0 <= j < k - 1 :: rest[j] == allowed[j + 1];
        }
      } else if Lists(first, kind, bits, curve) {
        assert Lists(allowed[0], kind, bits, curve);
      } else {
        assert Settles(allowed[0], kind);
      }
    }
  }

  /** Whatever is accepted is listed. */
  lemma AcceptedIsListed(kind: KeyKind, bits: int, curve: string, allowed: seq<KeyConfig>)
    ensures CheckKey(kind, bits, curve, allowed) ==> SomeEntryLists(allowed, kind, bits, curve)
  {
    AcceptedIff(kind, bits, curve, allowed);
  }

  /** Position of the first entry of a type, or the length of the list. */
  function FirstOf(allowed: seq<KeyConfig>, kind: KeyKind): (i: nat)
    ensures i <= |allowed| && (i < |allowed| ==> allowed[i].kind == kind)
    ensures forall j | 0 <= j < i :: allowed[j].kind != kind
  {
    if allowed == [] || allowed[0].kind == kind then 0 else 1 + FirstOf(allowed[1..], kind)
  }

  /** RSA and ECDSA keys are settled by the first entry of their type, whatever else the list says. */
  lemma FirstEntryDecides(kind: KeyKind, bits: int, curve: string, allowed: seq<KeyConfig>)
    requires kind != ED25519
    ensures var i := FirstOf(allowed, kind);
            CheckKey(kind, bits, curve, allowed) <==> i < |allowed| && Lists(allowed[i], kind, bits, curve)
  {
    AcceptedIff(kind, bits, curve, allowed);
    var i := FirstOf(allowed, kind);
    assert i < |allowed| ==> Settles(allowed[i], kind);
    assert forall j | 0 <= j < i :: !Settles(allowed[j], kind);
  }

  /** The first entry of the type offers all that the later ones of that type offer. */
  predicate FirstCovers(allowed: seq<KeyConfig>, kind: KeyKind) {
    var i := FirstOf(allowed, kind);
    forall k | i < k < |allowed| && allowed[k].kind == kind :: Covers(allowed[i], allowed[k], kind)
  }

  predicate Covers(first: KeyConfig, later: KeyConfig, kind: KeyKind) {
    if kind == RSA then forall n | n in later.sizes :: n in first.sizes
    else forall c | c in later.curves && c != NotSet :: c in first.curves
  }

  /** The check means what is documented for every RSA key exactly when the first RSA entry covers the
      later ones. */
  lemma RsaAsDocumentedIff(allowed: seq<KeyConfig>)
    ensures (forall bits: int :: CheckKey(RSA, bits, "", allowed) <==> SomeEntryLists(allowed, RSA, bits, ""))
        <==> FirstCovers(allowed, RSA)
  {
    var i := FirstOf(allowed, RSA);
    forall bits: int
      ensures CheckKey(RSA, bits, "", allowed) <==> i < |allowed| && bits in allowed[i].sizes
    {
      FirstEntryDecides(RSA, bits, "", allowed);
    }
    forall n | i < |allowed| && n in allowed[i].sizes ensures SomeEntryLists(allowed, RSA, n, "") {
      assert Lists(allowed[i], RSA, n, "");
    }
    if FirstCovers(allowed, RSA) {
      forall n: int | SomeEntryLists(allowed, RSA, n, "") ensures i < |allowed| && n in allowed[i].sizes {
        var k :| 0 <= k < |allowed| && Lists(allowed[k], RSA, n, "");
      }
    } else {
      var k :| i < k < |allowed| && allowed[k].kind == RSA && !Covers(allowed[i], allowed[k], RSA);
      var n :| n in allowed[k].sizes && n !in allowed[i].sizes;
      assert Lists(allowed[k], RSA, n, "");
      assert SomeEntryLists(allowed, RSA, n, "") && !CheckKey(RSA, n, "", allowed);
    }
  }

  lemma CurveOfName(c: Curve)
    ensures CurveOf(CurveName(c)) == if c == NotSet then P256 else c
  {
    assert ToUpper("P521") == "P521" && ToUpper("P384") == "P384" && ToUpper("P256") == "P256";
    assert ToUpper("ED25519") == "ED25519" && ToUpper("") == "";
  }

  /** Likewise for ECDSA keys of every curve name. */
  lemma EcdsaAsDocumentedIff(allowed: seq<KeyConfig>)
    ensures (forall curve: string :: CheckKey(ECDSA, 0, curve, allowed) <==> SomeEntryLists(allowed, ECDSA, 0, curve))
        <==> FirstCovers(allowed, ECDSA)
  {
    var i := FirstOf(allowed, ECDSA);
    forall curve: string
      ensures CheckKey(ECDSA, 0, curve, allowed) <==> i < |allowed| && CurveOf(curve) in allowed[i].curves
      ensures CurveOf(curve) != NotSet
    {
      FirstEntryDecides(ECDSA, 0, curve, allowed);
    }
    forall curve: string | i < |allowed| && CurveOf(curve) in allowed[i].curves
      ensures SomeEntryLists(allowed, ECDSA, 0, curve)
    {
      assert Lists(allowed[i], ECDSA, 0, curve);
    }
    if FirstCovers(allowed, ECDSA) {
      forall curve: string | SomeEntryLists(allowed, ECDSA, 0, curve)
        ensures i < |allowed| && CurveOf(curve) in allowed[i].curves
      {
        var k :| 0 <= k < |allowed| && Lists(allowed[k], ECDSA, 0, curve);
      }
    } else {
      var k :| i < k < |allowed| && allowed[k].kind == ECDSA && !Covers(allowed[i], allowed[k], ECDSA);
      var c :| c in allowed[k].curves && c != NotSet && c !in allowed[i].curves;
      CurveOfName(c);
      assert Lists(allowed[k], ECDSA, 0, CurveName(c));
      assert SomeEntryLists(allowed, ECDSA, 0, CurveName(c)) && !CheckKey(ECDSA, 0, CurveName(c), allowed);
    }
  }

  /** Every type is listed once, up to repetitions of the same entry. */
  predicate OneEntryPerType(allowed: seq<KeyConfig>) {
    forall i, j | 0 <= i < j < |allowed| && allowed[i].kind == allowed[j].kind :: allowed[i] == allowed[j]
  }

  /** Then the check means what is documented, and the order of the list does not matter. */
  lemma OrderDoesNotMatter(kind: KeyKind, bits: int, curve: string, a: seq<KeyConfig>, b: seq<KeyConfig>)
    requires kind != ED25519 && OneEntryPerType(a) && multiset(a) == multiset(b)
    ensures CheckKey(kind, bits, curve, a) == SomeEntryLists(a, kind, bits, curve)
    ensures CheckKey(kind, bits, curve, b) == CheckKey(kind, bits, curve, a)
  {
    FirstEntryDecides(kind, bits, curve, a);
    FirstEntryDecides(kind, bits, curve, b);
    var i, j := FirstOf(a, kind), FirstOf(b, kind);
    assert j < |b| ==> b[j] in multiset(b) && b[j] in a;
    assert i < |a| ==> a[i] in multiset(a) && a[i] in b;
  }

  /** For ED25519 keys the order matters: an entry of their own lets every such key in, but not behind
      an ECDSA entry without that curve. */
  lemma Ed25519DependsOnOrder(own: KeyConfig, ec: KeyConfig, bits: int, curve: string)
    requires own.kind == ED25519 && ec.kind == ECDSA && CurveED25519 !in ec.curves
    requires curve == "" || curve == "ED25519"
    ensures CheckKey(ED25519, bits, curve, [own, ec]) && !CheckKey(ED25519, bits, curve, [ec, own])
  {
    assert [own, ec][0] == own && [ec, own][0] == ec;
  }

  predicate OffersEd25519(entry: KeyConfig) {
    entry.kind == ECDSA && CurveED25519 in entry.curves
  }

  predicate OwnEntry(entry: KeyConfig) {
    entry.kind == ED25519
  }

  /** The first ECDSA entry, if there is one, offers ED25519 if a later one does; and if it does not,
      entries of the type itself are missing or one of them comes before it. */
  predicate FirstServesEd25519(allowed: seq<KeyConfig>) {
    var i := FirstOf(allowed, ECDSA);
    i < |allowed| && !OffersEd25519(allowed[i]) ==>
      && (forall k | i < k < |allowed| :: !OffersEd25519(allowed[k]))
      && ((exists j | 0 <= j < i :: OwnEntry(allowed[j])) || (forall j | 0 <= j < |allowed| :: !OwnEntry(allowed[j])))
  }

  /** How an ED25519 key is settled: up to the first ECDSA entry. */
  lemma Ed25519AcceptedIff(curve: string, allowed: seq<KeyConfig>)
    ensures var i, own := FirstOf(allowed, ECDSA), curve == "" || curve == "ED25519";
            CheckKey(ED25519, 0, curve, allowed) <==>
              (i < |allowed| && OffersEd25519(allowed[i])) || (own && exists j | 0 <= j < i :: OwnEntry(allowed[j]))
  {
    AcceptedIff(ED25519, 0, curve, allowed);
    var i, own := FirstOf(allowed, ECDSA), curve == "" || curve == "ED25519";
    assert forall j | 0 <= j < i :: !Settles(allowed[j], ED25519);
    assert i < |allowed| ==> Settles(allowed[i], ED25519);
    if i < |allowed| && OffersEd25519(allowed[i]) {
      assert Lists(allowed[i], ED25519, 0, curve);
    }
    if own {
      if j :| 0 <= j < i && OwnEntry(allowed[j]) {
        assert Lists(allowed[j], ED25519, 0, curve);
      }
    }
  }

  lemma Ed25519ListedIff(curve: string, allowed: seq<KeyConfig>)
    ensures SomeEntryLists(allowed, ED25519, 0, curve) <==>
              (exists k | 0 <= k < |allowed| :: OffersEd25519(allowed[k]))
              || ((curve == "" || curve == "ED25519") && exists k | 0 <= k < |allowed| :: OwnEntry(allowed[k]))
  {
    forall k | 0 <= k < |allowed|
      ensures Lists(allowed[k], ED25519, 0, curve) <==>
                OffersEd25519(allowed[k]) || (OwnEntry(allowed[k]) && (curve == "" || curve == "ED25519"))
    {}
  }

  /** The check means what is documented for ED25519 keys of every curve name exactly if the first ECDSA
      entry serves them. */
  lemma Ed25519AsDocumentedIff(allowed: seq<KeyConfig>)
    ensures (forall curve: string ::
               CheckKey(ED25519, 0, curve, allowed) <==> SomeEntryLists(allowed, ED25519, 0, curve))
        <==> FirstServesEd25519(allowed)
  {
    var other := "P256";
    Ed25519AcceptedIff("", allowed);
    Ed25519ListedIff("", allowed);
    Ed25519AcceptedIff(other, allowed);
    Ed25519ListedIff(other, allowed);
    forall curve: string | FirstServesEd25519(allowed)
      ensures CheckKey(ED25519, 0, curve, allowed) <==> SomeEntryLists(allowed, ED25519, 0, curve)
    {
      Ed25519AcceptedIff(curve, allowed);
      Ed25519ListedIff(curve, allowed);
    }
  }

  // ---------- the order of the list, for ED25519 keys ----------

  ghost predicate SameInEveryOrder(a: seq<KeyConfig>) {
    forall b: seq<KeyConfig>, curve: string | multiset(b) == multiset(a) ::
      CheckKey(ED25519, 0, curve, b) == CheckKey(ED25519, 0, curve, a)
  }

  predicate RefusesEd25519(entry: KeyConfig) {
    entry.kind == ECDSA && CurveED25519 !in entry.curves
  }

  /** `a` with entry k moved to the front. */
  function Fronted(a: seq<KeyConfig>, k: nat): (b: seq<KeyConfig>)
    requires k < |a|
    ensures multiset(b) == multiset(a) && b != [] && b[0] == a[k]
  {
    assert a == a[..k] + [a[k]] + a[k + 1..];
    [a[k]] + a[..k] + a[k + 1..]
  }

  /** With one entry per type, the order of the list matters for ED25519 keys exactly if it has both an
      entry of their own and an ECDSA entry without that curve. */
  lemma Ed25519OrderIff(a: seq<KeyConfig>)
    requires OneEntryPerType(a)
    ensures SameInEveryOrder(a) <==>
              !((exists j | 0 <= j < |a| :: OwnEntry(a[j])) && (exists k | 0 <= k < |a| :: RefusesEd25519(a[k])))
  {
    if (exists j | 0 <= j < |a| :: OwnEntry(a[j])) && (exists k | 0 <= k < |a| :: RefusesEd25519(a[k])) {
      var j :| 0 <= j < |a| && OwnEntry(a[j]);
      var k :| 0 <= k < |a| && RefusesEd25519(a[k]);
      var ownFirst, ecFirst := Fronted(a, j), Fronted(a, k);
      assert CheckKey(ED25519, 0, "", ownFirst) != CheckKey(ED25519, 0, "", ecFirst);
    } else {
      forall b: seq<KeyConfig>, curve: string | multiset(b) == multiset(a)
        ensures CheckKey(ED25519, 0, curve, b) == CheckKey(ED25519, 0, curve, a)
      {
        Ed25519SameOrder(a, b, curve);
      }
    }
  }

  lemma Ed25519SameOrder(a: seq<KeyConfig>, b: seq<KeyConfig>, curve: string)
    requires OneEntryPerType(a) && multiset(b) == multiset(a)
    requires (forall j | 0 <= j < |a| :: !OwnEntry(a[j])) || (forall k | 0 <= k < |a| :: !RefusesEd25519(a[k]))
    ensures CheckKey(ED25519, 0, curve, b) == CheckKey(ED25519, 0, curve, a)
  {
    SameEntries(a, b);
    SameEntries(b, a);
    SameFirst(a, b);
    Ed25519AcceptedIff(curve, a);
    Ed25519AcceptedIff(curve, b);
    SameOwn(a, b);
    SameOwn(b, a);
    var i, j := FirstOf(a, ECDSA), FirstOf(b, ECDSA);
    assert i < |a| && !OffersEd25519(a[i]) ==> RefusesEd25519(a[i]);
  }

  lemma SameFirst(a: seq<KeyConfig>, b: seq<KeyConfig>)
    requires OneEntryPerType(a) && (forall e | e in a :: e in b) && (forall e | e in b :: e in a)
    ensures var i, j := FirstOf(a, ECDSA), FirstOf(b, ECDSA);
            (i < |a| <==> j < |b|) && (i < |a| ==> a[i] == b[j])
  {
    var i, j := FirstOf(a, ECDSA), FirstOf(b, ECDSA);
    if i < |a| {
      assert a[i] in b;
    }
    if j < |b| {
      assert b[j] in a;
      var m :| 0 <= m < |a| && a[m] == b[j];
    }
  }

  lemma SameOwn(a: seq<KeyConfig>, b: seq<KeyConfig>)
    requires forall e | e in a :: e in b
    ensures (exists j | 0 <= j < |a| :: OwnEntry(a[j])) ==> exists k | 0 <= k < |b| :: OwnEntry(b[k])
  {
    if j :| 0 <= j < |a| && OwnEntry(a[j]) {
      assert a[j] in b;
      var k :| 0 <= k < |b| && b[k] == a[j];
      assert OwnEntry(b[k]);
    }
  }

  lemma SameEntries(a: seq<KeyConfig>, b: seq<KeyConfig>)
    requires multiset(a) == multiset(b)
    ensures forall e | e in a :: e in b
  {
    forall e | e in a ensures e in b {
      assert e in multiset(a) && e in multiset(b);
    }
  }

  /** A curve name outside the known ones is checked as P256. */
  lemma UnknownCurveIsP256(curve: string, allowed: seq<KeyConfig>)
    requires ToUpper(curve) !in {"P521", "P-521", "P384", "P-384", "ED25519"}
    ensures CheckKey(ECDSA, 0, curve, allowed) == CheckKey(ECDSA, 0, "P256", allowed)
  {
    assert ToUpper("P256") == "P256";
    FirstEntryDecides(ECDSA, 0, curve, allowed);
    FirstEntryDecides(ECDSA, 0, "P256", allowed);
  }
}
