/** The id-to-name scans of the section, object and instance records.
    The scan visits every record and keeps the name of the last one whose id matches;
    if none matches, the name it started with survives. */
module Resolver {
  import opened Wrappers
  import opened Document

  /** The two fields a scan reads from a section, object or instance record. */
  datatype Key = Key(id: int, name: string)

  function SectionKeys(ss: seq<Section>): seq<Key> {
    seq(|ss|, i requires 0 <= i < |ss| => Key(ss[i].id, ss[i].name))
  }

  function ObjectKeys(os: seq<Object>): seq<Key> {
    seq(|os|, i requires 0 <= i < |os| => Key(os[i].id, os[i].name))
  }

  function InstanceKeys(insts: seq<Instance>): seq<Key> {
    seq(|insts|, i requires 0 <= i < |insts| => Key(insts[i].id, insts[i].name))
  }

  /** No record has id `id`. */
  predicate Unmatched(ks: seq<Key>, id: int) {
    forall k :: 0 <= k < |ks| ==> ks[k].id != id
  }

  /** Record `k` has id `id` and no later record does. */
  predicate LastMatch(ks: seq<Key>, id: int, k: int) {
    && 0 <= k < |ks|
    && ks[k].id == id
    && forall l :: k < l < |ks| ==> ks[l].id != id
  }

  /** `n` is the name of some record whose id is `id`. */
  predicate NameWithId(ks: seq<Key>, id: int, n: Option<string>) {
    exists k :: 0 <= k < |ks| && ks[k].id == id && n == Some(ks[k].name)
  }

  /** One iteration of the scan. */
  function Pick(k: Key, id: int, carried: Option<string>): Option<string> {
    if k.id == id then Some(k.name) else carried
  }

  /** The scan, starting from the name `carried`. Its meaning is stated by `ScanIdsSpec`. */
  function ScanIds(ks: seq<Key>, id: int, carried: Option<string>): Option<string>
    decreases |ks|
  {
    if |ks| == 0 then carried else ScanIds(ks[1..], id, Pick(ks[0], id, carried))
  }

  /** The scan yields the name of the last record with the id; with no such record it
      yields the name it started from. */
  lemma {:induction false} ScanIdsSpec(ks: seq<Key>, id: int, carried: Option<string>)
    ensures var r := ScanIds(ks, id, carried);
            && (Unmatched(ks, id) ==> r == carried)
            && (forall k :: LastMatch(ks, id, k) ==> r == Some(ks[k].name))
            && (r == carried || NameWithId(ks, id, r))
            && (!Unmatched(ks, id) ==> r.Some?)
    decreases |ks|
  {
    if |ks| > 0 {
      var c := Pick(ks[0], id, carried);
      ScanIdsSpec(ks[1..], id, c);
      var r := ScanIds(ks, id, carried);
      assert r == ScanIds(ks[1..], id, c);
      assert forall k :: 1 <= k < |ks| ==> ks[1..][k - 1] == ks[k];
      assert forall k :: LastMatch(ks, id, k) && k > 0 ==> LastMatch(ks[1..], id, k - 1);
      if ks[0].id == id {
        assert NameWithId(ks, id, c);
        if r != c {
          var k :| 0 <= k < |ks[1..]| && ks[1..][k].id == id && r == Some(ks[1..][k].name);
          assert ks[k + 1] == ks[1..][k];
        }
      } else if r != carried {
        var k :| 0 <= k < |ks[1..]| && ks[1..][k].id == id && r == Some(ks[1..][k].name);
        assert ks[k + 1] == ks[1..][k];
      }
    }
  }

  /** Exactly one record has the id: the scan finds its name, whatever it started from. */
  lemma ScanUniqueId(ks: seq<Key>, id: int, carried: Option<string>, k: int)
    requires 0 <= k < |ks| && ks[k].id == id
    requires forall l :: 0 <= l < |ks| && l != k ==> ks[l].id != id
    ensures ScanIds(ks, id, carried) == Some(ks[k].name)
  {
    assert LastMatch(ks, id, k);
    ScanIdsSpec(ks, id, carried);
  }

  /** The names a loop over referenced ids looks up, one per id, when the name
      variable is cleared once before the loop and never again. Its
      meaning is stated by `RefNamesSpec`. */
  function RefNames(ks: seq<Key>, refs: seq<int>, carried: Option<string>): (names: seq<Option<string>>)
    ensures |names| == |refs|
    decreases |refs|
  {
    if |refs| == 0 then []
    else
      var first := ScanIds(ks, refs[0], carried);
      [first] + RefNames(ks, refs[1..], first)
  }

  /** The name in force before the `j`-th id is looked up. */
  function Previous(names: seq<Option<string>>, j: int, carried: Option<string>): Option<string>
    requires 0 <= j <= |names|
  {
    if j == 0 then carried else names[j - 1]
  }

  /** The `j`-th id is scanned starting from the name left by the id before it. */
  lemma {:induction false} RefNamesStep(ks: seq<Key>, refs: seq<int>, carried: Option<string>, j: int)
    requires 0 <= j < |refs|
    ensures RefNames(ks, refs, carried)[j] == ScanIds(ks, refs[j], Previous(RefNames(ks, refs, carried), j, carried))
    decreases j
  {
    var first := ScanIds(ks, refs[0], carried);
    var names := RefNames(ks, refs, carried);
    var rest := RefNames(ks, refs[1..], first);
    assert names == [first] + rest;
    if j > 0 {
      RefNamesStep(ks, refs[1..], first, j - 1);
      assert refs[1..][j - 1] == refs[j];
      assert Previous(rest, j - 1, first) == Previous(names, j, carried);
    }
  }

  /** Each referenced id is looked up under the name of the last record with that
      id; an id that matches no record reuses the name in force before it (the
      starting name for the first id), and once a name is found none is lost. */
  lemma RefNamesSpec(ks: seq<Key>, refs: seq<int>, carried: Option<string>)
    ensures var names := RefNames(ks, refs, carried);
            forall j :: 0 <= j < |refs| ==>
              && (forall k :: LastMatch(ks, refs[j], k) ==> names[j] == Some(ks[k].name))
              && (Unmatched(ks, refs[j]) ==> names[j] == Previous(names, j, carried))
              && (names[j] == Previous(names, j, carried) || NameWithId(ks, refs[j], names[j]))
              && (!Unmatched(ks, refs[j]) ==> names[j].Some?)
              && (Previous(names, j, carried).Some? ==> names[j].Some?)
  {
    var names := RefNames(ks, refs, carried);
    forall j | 0 <= j < |refs|
      ensures forall k :: LastMatch(ks, refs[j], k) ==> names[j] == Some(ks[k].name)
      ensures Unmatched(ks, refs[j]) ==> names[j] == Previous(names, j, carried)
      ensures names[j] == Previous(names, j, carried) || NameWithId(ks, refs[j], names[j])
      ensures !Unmatched(ks, refs[j]) ==> names[j].Some?
      ensures Previous(names, j, carried).Some? ==> names[j].Some?
    {
      RefNamesStep(ks, refs, carried, j);
      ScanIdsSpec(ks, refs[j], Previous(names, j, carried));
    }
  }

  /** The scan keeps the last record with the id: with two sections numbered 1 the
      second one's name is used. */
  lemma LastMatchExample()
    ensures ScanIds([Key(1, "A"), Key(1, "B")], 1, None) == Some("B")
  {
  }

  /** An id that matches nothing reuses the name found for the id before it: the
      ids [1, 7] over records 1 and 2 look up "A" twice. */
  lemma StaleNameExample()
    ensures RefNames([Key(1, "A"), Key(2, "B")], [1, 7], None) == [Some("A"), Some("A")]
  {
  }
}
