/** pkg/certificate/extKeyUsage.go, ExtKeyUsageSlice: collecting extended key usages. */
module ExtKeyUsages {
  import opened Wrappers
  import opened Seqs
  import opened Extensions

  /** The table of usage names, `UnknownUsage` for any other text. */
  type UsageTable = string -> ExtKeyUsage

  function Appended(usages: seq<ExtKeyUsage>, eku: ExtKeyUsage): seq<ExtKeyUsage> {
    if eku == UnknownUsage || eku in usages then usages else usages + [eku]
  }

  function AllAppended(table: UsageTable, usages: seq<ExtKeyUsage>, values: seq<string>): seq<ExtKeyUsage>
    decreases |values|
  {
    if values == [] then usages else AllAppended(table, Appended(usages, table(values[0])), values[1..])
  }

  function UnknownNames(table: UsageTable, values: seq<string>): seq<string> {
    if values == [] then []
    else (if table(values[0]) == UnknownUsage then [values[0]] else []) + UnknownNames(table, values[1..])
  }

  lemma UnknownStep(table: UsageTable, errs: seq<string>, values: seq<string>)
    requires values != []
    ensures errs + UnknownNames(table, values)
         == (if table(values[0]) == UnknownUsage then errs + [values[0]] else errs) + UnknownNames(table, values[1..])
  {
    Empty(UnknownNames(table, values[1..]));
    Assoc(errs, [values[0]], UnknownNames(table, values[1..]));
  }

  class ExtKeyUsageSlice {
    var usages: seq<ExtKeyUsage>

    constructor ()
      ensures usages == []
    {
      usages := [];
    }

    method Exists(eku: ExtKeyUsage) returns (r: bool)
      ensures r == (eku in usages)
    {
      for i := 0 to |usages|
        invariant eku !in usages[..i]
      {
        if usages[i] == eku {
          return true;
        }
        OneMore(usages, i);
      }
      assert usages[..|usages|] == usages;
      return false;
    }

    method AppendByEku(eku: ExtKeyUsage) returns (ok: bool)
      modifies this
      ensures ok == (eku != UnknownUsage) && usages == Appended(old(usages), eku)
    {
      ok := eku != UnknownUsage;
      if ok {
        var held := Exists(eku);
        if !held {
          usages := usages + [eku];
        }
      }
    }

    /** The error names the texts that are no usage; the others are added all the same. */
    method AddStrings(table: UsageTable, values: seq<string>) returns (errs: seq<string>)
      modifies this
      ensures usages == AllAppended(table, old(usages), values) && errs == UnknownNames(table, values)
    {
      errs := [];
      assert values[0..] == values;
      Empty(UnknownNames(table, values));
      for i := 0 to |values|
        invariant AllAppended(table, usages, values[i..]) == AllAppended(table, old(usages), values)
        invariant errs + UnknownNames(table, values[i..]) == UnknownNames(table, values)
      {
        assert values[i..][1..] == values[i + 1..];
        var ok := AppendByEku(table(values[i]));
        UnknownStep(table, errs, values[i..]);
        if !ok {
          errs := errs + [values[i]];
        }
      }
      Empty(errs);
    }
  }

  /** However often usages are named, the collection holds each known one once, where it was first named,
      and never an unknown one. */
  lemma {:induction false} EachUsageOnce(table: UsageTable, usages: seq<ExtKeyUsage>, values: seq<string>)
    requires NoRepeats(usages) && UnknownUsage !in usages
    ensures var all := AllAppended(table, usages, values);
            && NoRepeats(all) && usages <= all
            && forall e ::
                 e in all <==>
                   e in usages || (e != UnknownUsage && exists k | 0 <= k < |values| :: table(values[k]) == e)
    decreases |values|
  {
    if values != [] {
      EachUsageOnce(table, Appended(usages, table(values[0])), values[1..]);
      assert forall k | 0 < k < |values| :: values[k] == values[1..][k - 1];
      assert forall k | 0 <= k < |values| - 1 :: values[1..][k] == values[k + 1];
    }
  }

  lemma {:induction false} AppendedStep(table: UsageTable, usages: seq<ExtKeyUsage>, values: seq<string>, i: nat)
    requires i < |values|
    ensures AllAppended(table, usages, values[..i + 1])
         == Appended(AllAppended(table, usages, values[..i]), table(values[i]))
    decreases i
  {
    if i > 0 {
      AppendedStep(table, Appended(usages, table(values[0])), values[1..], i - 1);
      assert values[..i + 1][1..] == values[1..][..i] && values[..i][1..] == values[1..][..i - 1];
    } else {
      assert values[..1][1..] == [] && values[..0] == [];
    }
  }

  lemma {:induction false} AppendedPrefix(table: UsageTable, usages: seq<ExtKeyUsage>, values: seq<string>, i: nat)
    requires i <= |values|
    ensures AllAppended(table, usages, values[..i]) <= AllAppended(table, usages, values)
    decreases |values| - i
  {
    if i == |values| {
      assert values[..i] == values;
    } else {
      AppendedStep(table, usages, values, i);
      AppendedPrefix(table, usages, values, i + 1);
    }
  }

  /** New usages stand in the order of their first mentions: one follows all that were held or named
      before it. */
  lemma FirstMentionOrder(table: UsageTable, usages: seq<ExtKeyUsage>, values: seq<string>, i: nat)
    requires i < |values|
    requires var before := AllAppended(table, usages, values[..i]);
             table(values[i]) != UnknownUsage && table(values[i]) !in before
    ensures var before, all := AllAppended(table, usages, values[..i]), AllAppended(table, usages, values);
            before < all && all[|before|] == table(values[i])
  {
    AppendedStep(table, usages, values, i);
    AppendedPrefix(table, usages, values, i + 1);
  }

  lemma OidsDiffer(a: ExtKeyUsage, b: ExtKeyUsage)
    requires a != b && Oid(a).Some? && Oid(b).Some?
    ensures Oid(a) != Oid(b)
  {
    var x, y := Oid(a).value, Oid(b).value;
    assert |x| != |y| || x[|x| - 1] != y[|y| - 1];
  }

  /** So the extension written from it names every usage once, in order. */
  lemma {:induction false} OneOidPerUsage(usages: seq<ExtKeyUsage>)
    requires NoRepeats(usages) && UnknownUsage !in usages
    ensures |KnownOids(usages)| == |usages| && NoRepeats(KnownOids(usages))
    ensures forall k | 0 <= k < |usages| :: Oid(usages[k]) == Some(KnownOids(usages)[k])
  {
    if usages != [] {
      OneOidPerUsage(usages[1..]);
      forall k | 0 < k < |usages|
        ensures KnownOids(usages)[k] == KnownOids(usages[1..])[k - 1] != KnownOids(usages)[0]
      {
        assert usages[1..][k - 1] == usages[k];
        OidsDiffer(usages[0], usages[k]);
      }
    }
  }
}
