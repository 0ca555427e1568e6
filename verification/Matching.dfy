/** Which patches go to which entry of the desired state. */
module Matching {
  import opened JsonTree
  import opened SetDataRun
  import opened ResourceNames
  import opened NamesByPath

  /** The patches for one name, in data order, without their naming annotation. */
  function PatchesFor(data: seq<Json>, name: string): seq<Json> {
    if data == [] then []
    else
      var d := data[|data| - 1];
      PatchesFor(data[..|data| - 1], name) + if ResourceName(d) == name then [Clean(d)] else []
  }

  /** Different names, different objects. */
  ghost predicate DistinctEntries(desired: map<string, DesiredComposed>) {
    forall n, m | n in desired && m in desired && n != m :: desired[n] != desired[m]
  }

  function Filed(matches: map<DesiredComposed, seq<Json>>, c: DesiredComposed): seq<Json> {
    if c in matches then matches[c] else []
  }

  /** Every entry has on file exactly the patches of its name, and only entries with patches are on file. */
  ghost predicate Matched(desired: map<string, DesiredComposed>, data: seq<Json>, matches: map<DesiredComposed, seq<Json>>) {
    && (forall n | n in desired :: Filed(matches, desired[n]) == PatchesFor(data, n))
    && matches.Keys <= desired.Values
    && NoneEmpty(matches)
  }

  ghost predicate NoneEmpty(matches: map<DesiredComposed, seq<Json>>) {
    forall c | c in matches :: matches[c] != []
  }

  predicate AllNamed(names: set<string>, data: seq<Json>) {
    forall i | 0 <= i < |data| :: ResourceName(data[i]) in names
  }

  lemma PatchesForStep(data: seq<Json>, d: Json, name: string)
    ensures PatchesFor(data + [d], name) == PatchesFor(data, name) + if ResourceName(d) == name then [Clean(d)] else []
  {
    assert (data + [d])[..|data|] == data;
  }

  lemma AllNamedStep(names: set<string>, data: seq<Json>, d: Json)
    ensures AllNamed(names, data + [d]) <==> AllNamed(names, data) && ResourceName(d) in names
  {
    var data1 := data + [d];
    assert data1[|data|] == d && forall i | 0 <= i < |data| :: data1[i] == data[i];
  }

  /** `more` holds what `data` holds for each entry, and `clean` besides for `name`. */
  ghost predicate OneMoreFor(desired: map<string, DesiredComposed>, data: seq<Json>, more: seq<Json>, name: string, clean: Json) {
    forall n | n in desired :: PatchesFor(more, n) == PatchesFor(data, n) + if name == n then [clean] else []
  }

  lemma FiledAfter(matches: map<DesiredComposed, seq<Json>>, c: DesiredComposed, filed: seq<Json>, o: DesiredComposed)
    ensures Filed(matches[c := filed], o) == if o == c then filed else Filed(matches, o)
  {
  }

  lemma StillFiled(matches: map<DesiredComposed, seq<Json>>, c: DesiredComposed, filed: seq<Json>)
    requires filed != [] && NoneEmpty(matches)
    ensures NoneEmpty(matches[c := filed])
    ensures matches[c := filed].Keys == matches.Keys + {c}
  {
  }

  lemma FileNamed(desired: map<string, DesiredComposed>, data: seq<Json>, more: seq<Json>, name: string, clean: Json,
                  matches: map<DesiredComposed, seq<Json>>)
    requires DistinctEntries(desired) && name in desired
    requires OneMoreFor(desired, data, more, name, clean) && Matched(desired, data, matches)
    ensures Matched(desired, more, matches[desired[name] := Filed(matches, desired[name]) + [clean]])
  {
    var c, filed := desired[name], Filed(matches, desired[name]) + [clean];
    forall n | n in desired ensures Filed(matches[c := filed], desired[n]) == PatchesFor(more, n) {
      FiledAfter(matches, c, filed, desired[n]);
      if n != name {
        assert PatchesFor(data, n) + [] == PatchesFor(data, n);
      }
    }
    StillFiled(matches, c, filed);
    assert c in desired.Values;
  }

  lemma FileNowhere(desired: map<string, DesiredComposed>, data: seq<Json>, more: seq<Json>, name: string, clean: Json,
                    matches: map<DesiredComposed, seq<Json>>)
    requires name !in desired
    requires OneMoreFor(desired, data, more, name, clean) && Matched(desired, data, matches)
    ensures Matched(desired, more, matches)
  {
    forall n | n in desired ensures Filed(matches, desired[n]) == PatchesFor(more, n) {
      assert PatchesFor(more, n) == PatchesFor(data, n) + [];
    }
  }

  /** The next patch, cleaned to `clean`, goes to the entry it names, if there is one. */
  lemma MatchOneMore(desired: map<string, DesiredComposed>, data: seq<Json>, i: nat, clean: Json, matches: map<DesiredComposed, seq<Json>>)
    requires DistinctEntries(desired)
    requires i < |data| && clean == Clean(data[i]) && Matched(desired, data[..i], matches)
    ensures var name := ResourceName(data[i]);
            && (if name in desired
                then Matched(desired, data[..i + 1], matches[desired[name] := Filed(matches, desired[name]) + [clean]])
                else Matched(desired, data[..i + 1], matches))
            && (AllNamed(desired.Keys, data[..i + 1]) <==> AllNamed(desired.Keys, data[..i]) && name in desired)
  {
    var name, init, d := ResourceName(data[i]), data[..i], data[i];
    assert data[..i + 1] == init + [d];
    AllNamedStep(desired.Keys, init, d);
    forall n ensures PatchesFor(init + [d], n) == PatchesFor(init, n) + if name == n then [clean] else [] {
      PatchesForStep(init, d, n);
    }
    if name in desired {
      FileNamed(desired, init, init + [d], name, clean, matches);
    } else {
      FileNowhere(desired, init, init + [d], name, clean, matches);
    }
  }

  lemma NothingMatched(desired: map<string, DesiredComposed>, data: seq<Json>)
    ensures Matched(desired, data[..0], map[]) && AllNamed(desired.Keys, data[..0])
  {
  }

  lemma AllMatched(desired: map<string, DesiredComposed>, data: seq<Json>, i: nat, matches: map<DesiredComposed, seq<Json>>)
    requires i == |data| && Matched(desired, data[..i], matches)
    ensures Matched(desired, data, matches)
    ensures AllNamed(desired.Keys, data[..i]) <==> AllNamed(desired.Keys, data)
  {
    assert data[..i] == data;
  }

  lemma {:induction false} InPatchesFor(data: seq<Json>, i: nat)
    requires i < |data|
    ensures Clean(data[i]) in PatchesFor(data, ResourceName(data[i]))
    decreases |data|
  {
    if i < |data| - 1 {
      InPatchesFor(data[..|data| - 1], i);
    }
  }

  /** Is the object named by one of the names? */
  ghost predicate NamesOneOf(d: Json, names: set<string>) {
    exists n :: n in names && NamedBy(d, n)
  }

  /** What it is to be matched, said by the names on the items. */
  lemma FiledByName(desired: map<string, DesiredComposed>, data: seq<Json>, matches: map<DesiredComposed, seq<Json>>)
    requires Matched(desired, data, matches)
    ensures AllNamed(desired.Keys, data) <==> forall i | 0 <= i < |data| :: NamesOneOf(data[i], desired.Keys)
    ensures forall i, n | 0 <= i < |data| && n in desired && NamedBy(data[i], n) :: Clean(data[i]) in Filed(matches, desired[n])
  {
    forall i | 0 <= i < |data| ensures ResourceName(data[i]) in desired.Keys <==> NamesOneOf(data[i], desired.Keys) {
      NamedByOne(data[i]);
    }
    forall i, n | 0 <= i < |data| && n in desired && NamedBy(data[i], n) ensures Clean(data[i]) in Filed(matches, desired[n]) {
      NamedByOne(data[i]);
      InPatchesFor(data, i);
    }
  }
}
