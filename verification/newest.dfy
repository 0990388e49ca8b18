/** pkg/certificate/certificate.go, FindNewestCertificateWithSans. The lists of DNS names are sorted
    in place, and two certificates, or a certificate and the caller, may share one. */
module Newest {
  import opened Wrappers
  import opened Sorting

  /** `dns` is null for a nil list, which differs from an empty one; `validTo` is in seconds. */
  class CertificateInfo {
    const dns: array?<string>
    const validTo: int

    constructor (dns: array?<string>, validTo: int)
      ensures this.dns == dns && this.validTo == validTo
    {
      this.dns, this.validTo := dns, validTo;
    }
  }

  function NamesOf(dns: array?<string>): Option<seq<string>>
    reads dns
  {
    if dns == null then None else Some(dns[..])
  }

  /** The same names, each as often: two nil lists, or two lists with the same multiset. */
  predicate SameNames(a: Option<seq<string>>, b: Option<seq<string>>) {
    match (a, b)
    case (None, None) => true
    case (Some(x), Some(y)) => multiset(x) == multiset(y)
    case _ => false
  }

  function SortedNames(a: Option<seq<string>>): Option<seq<string>> {
    match a
    case None => None
    case Some(x) => Some(Sort(x))
  }

  /** Comparing sorted lists compares multisets. */
  lemma SortedNamesEqualIff(a: Option<seq<string>>, b: Option<seq<string>>)
    ensures SortedNames(a) == SortedNames(b) <==> SameNames(a, b)
  {
    if a.Some? && b.Some? {
      SortEqualIff(a.value, b.value);
    }
  }

  lemma SortTwice(s: seq<string>)
    ensures Sort(Sort(s)) == Sort(s)
  {
    SortSorts(s);
    SortOfSorted(Sort(s));
  }

  /** Every array the call may reorder. */
  ghost function Lists(certificates: seq<CertificateInfo>, sans: array?<string>): set<array<string>> {
    (set c | c in certificates && c.dns != null :: c.dns) + (if sans == null then {} else {sans})
  }

  method SortIfPresent(dns: array?<string>)
    modifies if dns == null then {} else {dns}
    ensures NamesOf(dns) == SortedNames(old(NamesOf(dns)))
  {
    if dns != null {
      SortStrings(dns);
    }
  }

  type NameList = Option<seq<string>>

  /** The names each certificate lists, and arrays that are shared list the same. */
  ghost predicate Snapshot(certificates: seq<CertificateInfo>, sans: array?<string>, listed: seq<NameList>,
                           wanted: NameList) {
    && |listed| == |certificates|
    && (forall i, j | 0 <= i < |certificates| && 0 <= j < |certificates|
                      && certificates[i].dns == certificates[j].dns ::
          listed[i] == listed[j])
    && (forall i | 0 <= i < |certificates| && certificates[i].dns == sans :: listed[i] == wanted)
    && (forall i | 0 <= i < |certificates| :: certificates[i].dns == null <==> listed[i] == None)
  }

  ghost function AllSorted(listed: seq<NameList>): (r: seq<NameList>)
    ensures |r| == |listed| && forall k | 0 <= k < |r| :: r[k] == SortedNames(listed[k])
  {
    seq(|listed|, k requires 0 <= k < |listed| => SortedNames(listed[k]))
  }

  /** The wanted list and the first n certificates' lists are as they are to be; the others likewise, if
      they are shared, or as they were. */
  ghost predicate DoneUpTo(certificates: seq<CertificateInfo>, sans: array?<string>, listed: seq<NameList>,
                           done: seq<NameList>, wanted: NameList, n: nat)
    requires |listed| == |done| == |certificates|
    reads Lists(certificates, sans)
  {
    && NamesOf(sans) == wanted
    && (forall i | 0 <= i < |certificates| ::
          NamesOf(certificates[i].dns) == done[i] || (n <= i && NamesOf(certificates[i].dns) == listed[i]))
  }

  ghost predicate SortedUpTo(certificates: seq<CertificateInfo>, sans: array?<string>, listed: seq<NameList>,
                             wanted: NameList, n: nat)
    requires |listed| == |certificates|
    reads Lists(certificates, sans)
  {
    DoneUpTo(certificates, sans, listed, AllSorted(listed), SortedNames(wanted), n)
  }

  /** Lists that are other arrays are left as they were. */
  method SortOne(certificates: seq<CertificateInfo>, sans: array?<string>, ghost done: NameList, i: nat)
    requires i < |certificates| && SortedNames(NamesOf(certificates[i].dns)) == done
    modifies Lists(certificates, sans)
    ensures NamesOf(certificates[i].dns) == done
    ensures sans != certificates[i].dns ==> NamesOf(sans) == old(NamesOf(sans))
    ensures forall j | 0 <= j < |certificates| && certificates[j].dns != certificates[i].dns ::
              NamesOf(certificates[j].dns) == old(NamesOf(certificates[j].dns))
  {
    assert certificates[i].dns != null ==> certificates[i].dns in Lists(certificates, sans);
    SortIfPresent(certificates[i].dns);
  }

  method SortNext(certificates: seq<CertificateInfo>, sans: array?<string>, ghost listed: seq<NameList>,
                  ghost done: seq<NameList>, ghost wanted: NameList, i: nat)
    requires i < |certificates| == |listed| == |done|
    requires forall j | 0 <= j < |certificates| && certificates[j].dns == certificates[i].dns :: done[j] == done[i]
    requires certificates[i].dns == sans ==> done[i] == wanted
    requires SortedNames(listed[i]) == SortedNames(done[i]) == done[i]
    requires DoneUpTo(certificates, sans, listed, done, wanted, i)
    modifies Lists(certificates, sans)
    ensures DoneUpTo(certificates, sans, listed, done, wanted, i + 1)
  {
    assert SortedNames(NamesOf(certificates[i].dns)) == done[i];
    SortOne(certificates, sans, done[i], i);
    assert NamesOf(sans) == wanted;
    forall j | 0 <= j < |certificates|
      ensures NamesOf(certificates[j].dns) == done[j] || (i + 1 <= j && NamesOf(certificates[j].dns) == listed[j])
    {
      if certificates[j].dns == certificates[i].dns {
        assert NamesOf(certificates[j].dns) == done[i] == done[j];
      } else {
        assert NamesOf(certificates[j].dns) == old(NamesOf(certificates[j].dns));
      }
    }
  }

  ghost function AllNames(certificates: seq<CertificateInfo>): (r: seq<NameList>)
    reads Lists(certificates, null)
    ensures |r| == |certificates| && forall i | 0 <= i < |r| :: r[i] == NamesOf(certificates[i].dns)
  {
    if certificates == [] then []
    else
      var c := certificates[0];
      assert c.dns != null ==> c.dns in Lists(certificates, null);
      assert forall d :: d in certificates[1..] ==> d in certificates;
      [NamesOf(c.dns)] + AllNames(certificates[1..])
  }

  method SortWanted(certificates: seq<CertificateInfo>, sans: array?<string>)
    returns (ghost listed: seq<NameList>, ghost wanted: NameList)
    modifies Lists(certificates, sans)
    ensures Snapshot(certificates, sans, listed, wanted)
    ensures SortedUpTo(certificates, sans, listed, wanted, 0)
    ensures wanted == old(NamesOf(sans))
    ensures forall i | 0 <= i < |certificates| :: listed[i] == old(NamesOf(certificates[i].dns))
  {
    listed := AllNames(certificates);
    wanted := NamesOf(sans);
    SortIfPresent(sans);
    forall j | 0 <= j < |certificates|
      ensures NamesOf(certificates[j].dns) == SortedNames(listed[j]) || NamesOf(certificates[j].dns) == listed[j]
    {
      if certificates[j].dns != sans {
        assert NamesOf(certificates[j].dns) == old(NamesOf(certificates[j].dns));
      }
    }
  }

  /** Of the first n: entry `at` lists the wanted names, none that does is newer, none before it as new. */
  ghost predicate NewestOf(certificates: seq<CertificateInfo>, listed: seq<NameList>, wanted: NameList, n: nat, at: nat)
    requires n <= |listed| == |certificates|
  {
    && at < n && SameNames(wanted, listed[at])
    && forall j | 0 <= j < n && SameNames(wanted, listed[j]) ::
         && certificates[j].validTo <= certificates[at].validTo
         && (j < at ==> certificates[j].validTo < certificates[at].validTo)
  }

  ghost predicate NoneOf(listed: seq<NameList>, wanted: NameList, n: nat)
    requires n <= |listed|
  {
    forall j | 0 <= j < n :: !SameNames(wanted, listed[j])
  }

  /** Taking one more certificate into account. */
  lemma ConsiderNext(certificates: seq<CertificateInfo>, listed: seq<NameList>, wanted: NameList, n: nat, found: bool,
                     at: nat)
    requires n < |listed| == |certificates|
    requires if found then NewestOf(certificates, listed, wanted, n, at) else NoneOf(listed, wanted, n)
    ensures var better := SameNames(wanted, listed[n]) &&
                          (!found || certificates[n].validTo > certificates[at].validTo);
            if found || better then NewestOf(certificates, listed, wanted, n + 1, if better then n else at)
            else NoneOf(listed, wanted, n + 1)
  {}

  /** Returns the newest certificate whose DNS names are the wanted ones, the earliest in the list if
      several are as new, or null exactly when there is none. `listed` and `wanted` are the names
      before the call; afterwards every list is sorted, and otherwise as it was. */
  method FindNewestCertificateWithSans(certificates: seq<CertificateInfo>, sans: array?<string>)
    returns (newest: CertificateInfo?, ghost at: nat, ghost listed: seq<NameList>, ghost wanted: NameList)
    modifies Lists(certificates, sans)
    ensures |listed| == |certificates| && wanted == old(NamesOf(sans))
    ensures forall i | 0 <= i < |certificates| :: listed[i] == old(NamesOf(certificates[i].dns))
    ensures newest != null ==> NewestOf(certificates, listed, wanted, |certificates|, at) && certificates[at] == newest
    ensures newest == null <==> NoneOf(listed, wanted, |certificates|)
    ensures sans == null ==> wanted == None
    ensures sans != null ==> wanted == Some(old(sans[..])) && sans[..] == Sort(old(sans[..]))
    ensures NamesOf(sans) == SortedNames(wanted)
    ensures forall i | 0 <= i < |certificates| :: NamesOf(certificates[i].dns) == SortedNames(listed[i])
  {
    listed, wanted := SortWanted(certificates, sans);
    newest, at := null, 0;
    for i := 0 to |certificates|
      invariant SortedUpTo(certificates, sans, listed, wanted, i)
      invariant newest != null ==> NewestOf(certificates, listed, wanted, i, at) && certificates[at] == newest
      invariant newest == null ==> NoneOf(listed, wanted, i)
    {
      var certificate := certificates[i];
      SortTwiceNames(listed[i]);
      SortNext(certificates, sans, listed, AllSorted(listed), SortedNames(wanted), i);
      SortedNamesEqualIff(wanted, listed[i]);
      ConsiderNext(certificates, listed, wanted, i, newest != null, at);
      assert NamesOf(sans) == NamesOf(certificate.dns) <==> SameNames(wanted, listed[i]);
      if NamesOf(sans) == NamesOf(certificate.dns) {
        if newest == null || certificate.validTo > newest.validTo {
          newest, at := certificate, i;
        }
      }
    }
  }

  lemma SortTwiceNames(a: NameList)
    ensures SortedNames(SortedNames(a)) == SortedNames(a)
  {
    if a.Some? {
      SortTwice(a.value);
    }
  }
}
