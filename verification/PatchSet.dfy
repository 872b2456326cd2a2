/** A patch of several sections, ordered by the raw bytes of their paths
    (probes/z5/probe4_apply_check.py, part 4). */
module PatchSet {
  import opened Common
  import opened CQuoting
  import opened PatchPrinter
  import opened PatchReader
  import opened PatchRoundTrip
  import opened Sorting

  function PathOf(): Change -> string {
    (c: Change) => c.path
  }

  /** The whole patch: sections sorted by path, then joined. */
  function SortedPatch(cs: seq<Change>): bytes {
    ShowPatch(SortBy(cs, PathOf()))
  }

  /** The tab after the name is an option of the always quoting composer only. */
  predicate HasComposer(c: Change) {
    c.NewFile? && c.form == TabAfterName ==> c.quoting
  }

  method Compose(c: Change) returns (out: bytes)
    requires HasComposer(c)
    ensures out == Show(c)
  {
    match c
    case NewFile(path, content, mode, form, quoting) =>
      if form == TabAfterName {
        out := ComposeNew(path, content, mode, true);
      } else {
        out := ComposeNewFile(path, content, mode, quoting, form == ExplicitRange);
      }
    case Modify(path, old_, new_, quoting) =>
      out := ComposeModify(path, old_, new_, quoting);
  }

  method ComposeAll(cs: seq<Change>) returns (whole: bytes)
    requires forall c :: c in cs ==> HasComposer(c)
    ensures whole == SortedPatch(cs)
  {
    var secs := SortBy(cs, PathOf());
    SortBySorts(cs, PathOf());
    whole := [];
    for i := 0 to |secs|
      invariant whole + ShowPatch(secs[i..]) == ShowPatch(secs)
    {
      assert secs[i] in multiset(cs);
      var section := Compose(secs[i]);
      assert secs[i..][1..] == secs[i + 1..];
      Nest2(whole, section, ShowPatch(secs[i + 1..]));
      whole := whole + section;
    }
    assert whole + [] == whole;
  }

  lemma PrintablePermuted(cs: seq<Change>, ds: seq<Change>)
    requires multiset(cs) == multiset(ds)
    requires forall i :: 0 <= i < |cs| ==> Printable(cs[i])
    ensures forall i :: 0 <= i < |ds| ==> Printable(ds[i])
  {
    forall i | 0 <= i < |ds| ensures Printable(ds[i]) {
      assert ds[i] in multiset(cs);
    }
  }

  /** The sorted patch reads back as the changes in path order, and for
      distinct paths it does not depend on the order they were given in. */
  lemma SortedPatchRoundTrip(cs: seq<Change>, ds: seq<Change>)
    requires forall i :: 0 <= i < |cs| ==> Printable(cs[i])
    requires multiset(cs) == multiset(ds)
    ensures ReadPatch(SortedPatch(cs)) == Some(Meanings(SortBy(cs, PathOf())))
    ensures SortedBy(SortBy(cs, PathOf()), PathOf()) && multiset(SortBy(cs, PathOf())) == multiset(cs)
    ensures DistinctKeys(cs, PathOf()) ==> SortedPatch(cs) == SortedPatch(ds)
  {
    hide ReadPatch, ShowPatch, Meanings, SortBy, Printable;
    SortBySorts(cs, PathOf());
    PrintablePermuted(cs, SortBy(cs, PathOf()));
    PatchRoundTrip.PatchRoundTrip(SortBy(cs, PathOf()));
    if DistinctKeys(cs, PathOf()) {
      SortByCanonical(cs, ds, PathOf());
    }
  }
}
