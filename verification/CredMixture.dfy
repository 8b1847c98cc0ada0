/** Where a commit finds an interrupted store: when does the complete store it
    leaves mix the set before the interrupted commit with the one after? */
module CredMixture {
  import opened CredCommit

  predicate SameAt(x: Fields, y: Fields, f: Field) { (f in x <==> f in y) && (f in x ==> x[f] == y[f]) }

  /** Field f was to change in commit a, and commit b keeps what it finds. */
  predicate Torn(fields: Fields, a: seq<Op>, b: seq<Op>, f: Field)
    requires |a| == |b| == COUNT
  {
    b[f].Keep? && !SameAt(fields, Wanted(fields, a), f)
  }

  /** No mixture: b applied to the set before a, or to the set after it. */
  predicate Unmixed(r: Fields, fields: Fields, a: seq<Op>, b: seq<Op>)
    requires |a| == |b| == COUNT
  {
    r == Wanted(fields, b) || r == Wanted(Wanted(fields, a), b)
  }

  /** The set that b leaves, written whole after a was cut at k writes. */
  function SetAfter(s: Store, a: seq<Op>, k: nat, b: seq<Op>): Fields
    requires |a| == |b| == COUNT && k <= |Writes(s, a)|
  {
    var cut := CutAfter(s, a, k);
    CutAfter(cut, b, |Writes(cut, b)|).fields
  }

  // ---- cuts and rounds ---------------------------------------------------

  /** Each prefix of the field writes is that of some round. */
  lemma {:induction false} PrefixIsRound(fields: Fields, stage: seq<Op>, n: nat, j: nat) returns (m: nat)
    requires n <= COUNT == |stage| && j <= |FieldWrites(fields, stage, n)|
    ensures m <= n && FieldWrites(fields, stage, n)[..j] == FieldWrites(fields, stage, m)
  {
    m := n;
    if j < |FieldWrites(fields, stage, n)| {
      m := PrefixIsRound(fields, stage, n - 1, j);
      FieldWritesPrefix(fields, stage, n - 1, n);
    }
  }

  lemma RoundApplies(s: Store, stage: seq<Op>, n: nat)
    requires n <= COUNT == |stage|
    ensures Applied(s, [PutFlag(0)] + FieldWrites(s.fields, stage, n)).fields == Merged(s.fields, stage, n)
  {
    hide Applied, FieldWrites, Merged;
    AppliedMore(s, [PutFlag(0)], FieldWrites(s.fields, stage, n));
    AppliedOne(s, PutFlag(0));
    LoopApplied(Apply(s, PutFlag(0)), stage, n);
  }

  /** A cut leaves the fields as after some number of rounds of the loop. */
  lemma CutIsRound(s: Store, stage: seq<Op>, k: nat) returns (n: nat)
    requires |stage| == COUNT && k <= |Writes(s, stage)|
    ensures n <= COUNT && CutAfter(s, stage, k).fields == Merged(s.fields, stage, n)
  {
    hide Applied, FieldWrites, Merged;
    var ws, fs := Writes(s, stage), FieldWrites(s.fields, stage, COUNT);
    if k == 0 {
      n := 0;
      StartOfWrites(s, stage);
    } else if k <= 1 + |fs| {
      n := PrefixIsRound(s.fields, stage, COUNT, k - 1);
      assert ws[..k] == [PutFlag(0)] + fs[..k - 1];
      RoundApplies(s, stage, n);
    } else {
      n := COUNT;
      RoundApplies(s, stage, n);
      assert ws[..1 + |fs|] == [PutFlag(0)] + fs;
      NextWrite(s, ws, 1 + |fs|);
      if k == |fs| + 3 { NextWrite(s, ws, 2 + |fs|); }
    }
  }

  /** Every number of rounds is where some cut leaves the fields. */
  lemma RoundIsCut(s: Store, stage: seq<Op>, n: nat) returns (k: nat)
    requires n <= COUNT == |stage|
    ensures 1 <= k < |Writes(s, stage)| && CutAfter(s, stage, k).fields == Merged(s.fields, stage, n)
  {
    hide Applied, Merged;
    k := 1 + |FieldWrites(s.fields, stage, n)|;
    FieldWritesPrefix(s.fields, stage, n, COUNT);
    assert Writes(s, stage)[..k] == [PutFlag(0)] + FieldWrites(s.fields, stage, n);
    RoundApplies(s, stage, n);
  }

  /** The rounds so far decide a torn field, and leave one still to come. */
  predicate Parts(fields: Fields, a: seq<Op>, b: seq<Op>, n: nat)
    requires |a| == |b| == COUNT
  {
    exists f: Field, g: Field :: f < n <= g && Torn(fields, a, b, f) && Torn(fields, a, b, g)
  }

  lemma MergedSame(fields: Fields, a: seq<Op>, n: nat, f: Field)
    requires n <= COUNT == |a|
    ensures SameAt(Merged(fields, a, n), if f < n then Wanted(fields, a) else fields, f)
  {
    hide Merged;
    MergedAt(fields, a, n, f);
  }

  lemma WantedSame(x: Fields, y: Fields, b: seq<Op>, f: Field)
    requires |b| == COUNT
    ensures SameAt(Wanted(x, b), Wanted(y, b), f) <==> !b[f].Keep? || SameAt(x, y, f)
  {
  }

  lemma SameEverywhere(x: Fields, y: Fields)
    ensures x == y <==> forall f: Field :: SameAt(x, y, f)
  {
    if forall f: Field :: SameAt(x, y, f) {
      forall f: Field ensures (f in x <==> f in y) && (f in x ==> x[f] == y[f]) { assert SameAt(x, y, f); }
      assert x.Keys == y.Keys;
    }
  }

  /** A commit on top of n rounds mixes exactly if they part two torn fields. */
  lemma RoundUnmixed(fields: Fields, a: seq<Op>, b: seq<Op>, n: nat)
    requires n <= COUNT && |a| == |b| == COUNT
    ensures Unmixed(Wanted(Merged(fields, a, n), b), fields, a, b) <==> !Parts(fields, a, b, n)
  {
    hide Merged, Wanted;
    var m, w := Merged(fields, a, n), Wanted(fields, a);
    SameEverywhere(Wanted(m, b), Wanted(fields, b));
    SameEverywhere(Wanted(m, b), Wanted(w, b));
    forall f: Field
      ensures SameAt(Wanted(m, b), Wanted(fields, b), f) <==> !(f < n && Torn(fields, a, b, f))
      ensures SameAt(Wanted(m, b), Wanted(w, b), f) <==> !(f >= n && Torn(fields, a, b, f))
    {
      MergedSame(fields, a, n, f);
      WantedSame(m, fields, b, f);
      WantedSame(m, w, b, f);
    }
  }

  // ---- when there is no mixture ------------------------------------------

  predicate AtMostOneTorn(fields: Fields, a: seq<Op>, b: seq<Op>)
    requires |a| == |b| == COUNT
  {
    forall f: Field, g: Field :: Torn(fields, a, b, f) && Torn(fields, a, b, g) ==> f == g
  }

  /** Wherever commit a is cut, a whole commit b after it leaves no mixture: if
      and only if b keeps at most one field that a was to change. */
  lemma NoMixtureIff(s: Store, a: seq<Op>, b: seq<Op>)
    requires |a| == |b| == COUNT
    ensures (forall k :: 0 <= k <= |Writes(s, a)| ==> Unmixed(SetAfter(s, a, k, b), s.fields, a, b))
            <==> AtMostOneTorn(s.fields, a, b)
  {
    hide Torn, Writes, Applied, Merged, Wanted, Unmixed;
    forall k | 0 <= k <= |Writes(s, a)|
      ensures AtMostOneTorn(s.fields, a, b) ==> Unmixed(SetAfter(s, a, k, b), s.fields, a, b)
    {
      var n := CutIsRound(s, a, k);
      WholeComplete(CutAfter(s, a, k), b);
      RoundUnmixed(s.fields, a, b, n);
    }
    if !AtMostOneTorn(s.fields, a, b) {
      var f: Field, g: Field :| Torn(s.fields, a, b, f) && Torn(s.fields, a, b, g) && f < g;
      var k := RoundIsCut(s, a, g);
      WholeComplete(CutAfter(s, a, k), b);
      RoundUnmixed(s.fields, a, b, g);
      assert Parts(s.fields, a, b, g);
      assert !Unmixed(SetAfter(s, a, k, b), s.fields, a, b);
    }
  }

  // ---- with the pair check -----------------------------------------------

  /** Commit a of a run is cut at k, commit b then let through if it may be. */
  function Run(s: Store, a: seq<Op>, k: nat, b: seq<Op>): Store
    requires |a| == |b| == COUNT
  {
    After(s, [Try(a, true, k), Try(b, true, COUNT + 3)])
  }

  /** commit() starts to write: something is staged and the pairs are whole. */
  predicate Starts(fields: Fields, stage: seq<Op>)
    requires |stage| == COUNT
  {
    !(forall i :: 0 <= i < COUNT ==> stage[i].Keep?) && CheckSet(Present(fields, stage)).None?
  }

  lemma RunIs(s: Store, a: seq<Op>, k: nat, b: seq<Op>)
    requires |a| == |b| == COUNT && Starts(s.fields, a) && k <= |Writes(s, a)|
    ensures var cut := CutAfter(s, a, k);
            Run(s, a, k, b) == if Starts(cut.fields, b) then CutAfter(cut, b, |Writes(cut, b)|) else cut
  {
    hide Applied, FieldWrites, Present, CheckSet;
    var ts := [Try(a, true, k), Try(b, true, COUNT + 3)];
    assert ts[..1] == [ts[0]] && ts[..1][..0] == [];
    assert After(s, ts[..1][..0]) == s && After(s, ts[..1]) == CutAfter(s, a, k);
    FewWrites(CutAfter(s, a, k), b);
  }

  /** The commits as they are, pair check included: an interrupted commit a and
      a further commit b can end in a complete store with a mixture if and only
      if some round of a parts two torn fields and leaves pairs that b's check
      accepts. */
  lemma MixtureIff(s: Store, a: seq<Op>, b: seq<Op>)
    requires |a| == |b| == COUNT && Starts(s.fields, a)
    ensures (exists k :: 1 <= k < |Writes(s, a)| && StateOf(Run(s, a, k, b)) == Complete
               && !Unmixed(Run(s, a, k, b).fields, s.fields, a, b))
            <==> exists n :: 0 <= n <= COUNT && Parts(s.fields, a, b, n) && Starts(Merged(s.fields, a, n), b)
  {
    hide Torn, Writes, Applied, Merged, Wanted, Unmixed, Starts, Parts, After;
    forall k | 1 <= k < |Writes(s, a)| && StateOf(Run(s, a, k, b)) == Complete
        && !Unmixed(Run(s, a, k, b).fields, s.fields, a, b)
      ensures exists n :: 0 <= n <= COUNT && Parts(s.fields, a, b, n) && Starts(Merged(s.fields, a, n), b)
    {
      var n := CutIsRound(s, a, k);
      RunIs(s, a, k, b);
      MiddleIncomplete(s, a, k);
      WholeComplete(CutAfter(s, a, k), b);
      RoundUnmixed(s.fields, a, b, n);
    }
    forall n | 0 <= n <= COUNT && Parts(s.fields, a, b, n) && Starts(Merged(s.fields, a, n), b)
      ensures exists k :: 1 <= k < |Writes(s, a)| && StateOf(Run(s, a, k, b)) == Complete
                && !Unmixed(Run(s, a, k, b).fields, s.fields, a, b)
    {
      var k := RoundIsCut(s, a, n);
      RunIs(s, a, k, b);
      WholeComplete(CutAfter(s, a, k), b);
      RoundUnmixed(s.fields, a, b, n);
    }
  }

  // ---- an example --------------------------------------------------------

  /** A commit of a new name and passphrase. */
  function BothStaged(ssid: string, pass: string): (stage: seq<Op>)
    ensures |stage| == COUNT
  {
    [Set(ssid), Set(pass), Keep, Keep, Keep, Keep, Keep, Keep, Keep]
  }

  function NameStaged(name: string): (stage: seq<Op>)
    ensures |stage| == COUNT
  {
    [Keep, Keep, Keep, Keep, Keep, Keep, Keep, Set(name), Keep]
  }

  lemma BothTorn(fields: Fields, ssid: string, pass: string, name: string)
    requires SSID in fields && PASS in fields && ssid != fields[SSID] && pass != fields[PASS]
    ensures Torn(fields, BothStaged(ssid, pass), NameStaged(name), SSID)
    ensures Torn(fields, BothStaged(ssid, pass), NameStaged(name), PASS)
  {
  }

  lemma PairsWhole(fields: Fields, stage: seq<Op>)
    requires |stage| == COUNT && stage[2].Keep? && stage[3].Keep? && (MQTT_USER in fields <==> MQTT_PASS in fields)
    requires (stage[0].Set? && stage[1].Set?) || (stage[0].Keep? && stage[1].Keep? && SSID in fields && PASS in fields)
    ensures CheckSet(Present(fields, stage)).None?
  {
    var p := Present(fields, stage);
    assert p[SSID] && p[PASS] && p[MQTT_USER] == p[MQTT_PASS];
  }

  lemma NameWritten(fields: Fields, ssid: string, pass: string)
    ensures Merged(fields, BothStaged(ssid, pass), 1) == fields[SSID := ssid]
  {
    assert Merged(fields, BothStaged(ssid, pass), 0) == fields;
  }

  /** A paired complete store: new name and passphrase committed, cut after the
      name; then anything else committed. The store is complete again, with the
      new name and the old passphrase, and a mixture. */
  lemma MixtureFromIncomplete(s: Store, newSsid: string, newPass: string, name: string) returns (k: nat)
    requires StateOf(s) == Complete && PairedFields(s.fields) && SSID in s.fields
    requires newSsid != s.fields[SSID] && newPass != s.fields[PASS]
    ensures var (a, b) := (BothStaged(newSsid, newPass), NameStaged(name));
            var r := Run(s, a, k, b);
            && 1 <= k < |Writes(s, a)| && StateOf(r) == Complete && !Unmixed(r.fields, s.fields, a, b)
            && SSID in r.fields && r.fields[SSID] == newSsid && PASS in r.fields && r.fields[PASS] == s.fields[PASS]
  {
    hide Torn, Writes, Applied, Merged, Unmixed, After, Wanted, CheckSet, Present;
    var a, b := BothStaged(newSsid, newPass), NameStaged(name);
    k := RoundIsCut(s, a, 1);
    NameWritten(s.fields, newSsid, newPass);
    var cut := CutAfter(s, a, k);
    PairsWhole(s.fields, a);
    PairsWhole(cut.fields, b);
    assert a[SSID].Set? && b[7].Set?;
    RunIs(s, a, k, b);
    WholeComplete(cut, b);
    BothTorn(s.fields, newSsid, newPass, name);
    assert Parts(s.fields, a, b, 1);
    RoundUnmixed(s.fields, a, b, 1);
    KeptAt(cut.fields, b, SSID);
    KeptAt(cut.fields, b, PASS);
  }

  lemma KeptAt(fields: Fields, b: seq<Op>, f: Field)
    requires |b| == COUNT && b[f].Keep?
    ensures SameAt(Wanted(fields, b), fields, f)
  {
  }

  lemma {:induction false} FewFieldWrites(fields: Fields, stage: seq<Op>, n: nat)
    requires n <= COUNT == |stage|
    ensures |FieldWrites(fields, stage, n)| <= n
  {
    if n > 0 { FewFieldWrites(fields, stage, n - 1); }
  }

  lemma FewWrites(s: Store, stage: seq<Op>)
    requires |stage| == COUNT
    ensures |Writes(s, stage)| <= COUNT + 3
  {
    FewFieldWrites(s.fields, stage, COUNT);
  }
}
