/** The mutation registry of scripts/mutation/run_mutations.py: its validation, the
    owner of every mutation and the run. Texts are kept as their UTF-8 bytes. */
module MutationRegistry {
  import opened Common
  import opened Text
  import opened Substrings
  import opened Sorting

  datatype Invariant = Invariant(id: string, mutants: seq<string>, killers: seq<string>)

  datatype Mutation = Mutation(id: string, target: string, anchor: NonEmpty, replacement: NonEmpty)

  datatype Registry = Registry(
    schemaVersion: int, implemented: seq<string>, invariants: seq<Invariant>, mutations: seq<Mutation>)

  /** The regular files of the repository by their relative path. */
  type Tree = map<string, string>

  datatype RegistryError =
    | UnsupportedSchema
    | DuplicateImplemented
    | DuplicateInvariant
    | MappingNotTotal
    | DuplicateMutation
    | NoMutant(id: string)
    | NoKiller(id: string)
    | UnknownMutants(id: string)
    | OnlyMatrixKillers(id: string)
    | BadKiller(node: string)
    | DuplicateMapping
    | Unmapped
    | BadTarget(id: string)
    | AnchorCount(id: string, count: nat)
    | SameReplacement(id: string)

  // --------------------------------------------------------- specification

  function InvariantIds(invs: seq<Invariant>): (ids: seq<string>)
    ensures |ids| == |invs| && forall i :: 0 <= i < |ids| ==> ids[i] == invs[i].id
  {
    if invs == [] then [] else [invs[0].id] + InvariantIds(invs[1..])
  }

  function MutationIds(mus: seq<Mutation>): (ids: seq<string>)
    ensures |ids| == |mus| && forall i :: 0 <= i < |ids| ==> ids[i] == mus[i].id
  {
    if mus == [] then [] else [mus[0].id] + MutationIds(mus[1..])
  }

  /** The mutants of all invariants, in order. */
  function Mapped(invs: seq<Invariant>): seq<string> {
    if invs == [] then [] else Mapped(invs[..|invs| - 1]) + invs[|invs| - 1].mutants
  }

  function Lower(c: char): char {
    if 'A' <= c <= 'Z' then (c as int + 32) as char else c
  }

  function ToLower(s: string): string {
    if s == "" then "" else [Lower(s[0])] + ToLower(s[1..])
  }

  /** `_is_matrix_node` */
  predicate IsMatrixNode(node: string) {
    var l := ToLower(node);
    Occurs("matrix", l) || Occurs("120x2", l) || Occurs("120_x_2", l)
  }

  /** `_safe_target`, for paths written canonically. */
  predicate SafeTarget(tree: Tree, t: string) {
    && (StartsWith(t, "src/sol_claude_dispatcher/") || StartsWith(t, "tests/"))
    && Lacks('\\', t) && ".." !in Split('/', t) && t in tree
  }

  /** `s.split(pat)` */
  function SplitOn(pat: string, s: string): seq<string>
    requires pat != ""
    decreases |s|
  {
    var i := IndexOf(pat, s);
    if i == |s| then [s] else [s[..i]] + SplitOn(pat, s[i + |pat|..])
  }

  /** Whether the text of a test module defines the function with these names (a class
      and a function, or a function) exactly once. */
  type Defined = (string, seq<string>) -> bool

  predicate OneLine(s: string) {
    Lacks(0 as char, s) && Lacks('\r', s) && Lacks('\n', s)
  }

  /** `_validate_killer_node`, for target paths written canonically. */
  predicate KillerOk(tree: Tree, defined: Defined, node: string) {
    var names := SplitOn("::", node);
    && StartsWith(node, "tests/") && OneLine(node)
    && 2 <= |names| <= 3
    && SafeTarget(tree, names[0])
    && StartsWith(names[|names| - 1], "test_")
    && defined(Universal(tree[names[0]]), names[1..])
  }

  /** An invariant row. */
  predicate InvariantOk(known: seq<string>, tree: Tree, defined: Defined, inv: Invariant) {
    && inv.mutants != [] && inv.killers != []
    && (forall x :: x in inv.mutants ==> x in known)
    && (exists n :: n in inv.killers && !IsMatrixNode(n))
    && (forall n :: n in inv.killers ==> KillerOk(tree, defined, n))
  }

  predicate MutationOk(tree: Tree, mu: Mutation) {
    && SafeTarget(tree, mu.target)
    && Count(mu.anchor, Universal(tree[mu.target])) == 1
    && mu.anchor != mu.replacement
  }

  predicate SameMembers(a: seq<string>, b: seq<string>) {
    (forall x :: x in a ==> x in b) && forall x :: x in b ==> x in a
  }

  predicate AllInvariantsOk(reg: Registry, tree: Tree, defined: Defined) {
    forall inv :: inv in reg.invariants ==> InvariantOk(MutationIds(reg.mutations), tree, defined, inv)
  }

  predicate Accepted(reg: Registry, tree: Tree, defined: Defined) {
    && reg.schemaVersion == 1
    && NoDuplicates(reg.implemented)
    && NoDuplicates(InvariantIds(reg.invariants))
    && SameMembers(reg.implemented, InvariantIds(reg.invariants))
    && NoDuplicates(MutationIds(reg.mutations))
    && AllInvariantsOk(reg, tree, defined)
    && NoDuplicates(Mapped(reg.invariants))
    && SameMembers(MutationIds(reg.mutations), Mapped(reg.invariants))
    && forall mu :: mu in reg.mutations ==> MutationOk(tree, mu)
  }

  /** Names joined with two colons. */
  function JoinNames(names: seq<string>): string {
    if names == [] then "" else if |names| == 1 then names[0] else names[0] + "::" + JoinNames(names[1..])
  }

  lemma FirstColons(name: string, rest: string)
    requires Lacks(':', name)
    ensures IndexOf("::", name + "::" + rest) == |name|
  {
    var s := name + "::" + rest;
    assert s[|name|..|name| + 2] == "::";
    forall k | 0 <= k < |name|
      ensures !OccursAt("::", s, k)
    {
      assert s[k] == name[k];
      assert s[k..k + 2][0] == s[k];
    }
    IndexIs("::", s, |name|);
  }

  lemma NoColons(name: string)
    requires Lacks(':', name)
    ensures IndexOf("::", name) == |name|
  {
    forall k
      ensures !OccursAt("::", name, k)
    {
      if 0 <= k && k + 2 <= |name| {
        assert name[k..k + 2][0] == name[k];
      }
    }
  }

  /** A node id names its module, its class if any, and its function. */
  lemma {:induction false} NodeNames(names: seq<string>)
    requires names != [] && forall i :: 0 <= i < |names| ==> Lacks(':', names[i])
    ensures SplitOn("::", JoinNames(names)) == names
  {
    hide IndexOf;
    if |names| == 1 {
      NoColons(names[0]);
    } else {
      var s, rest := JoinNames(names), JoinNames(names[1..]);
      FirstColons(names[0], rest);
      NodeNames(names[1..]);
      assert s[..|names[0]|] == names[0] && s[|names[0]| + 2..] == rest;
    }
  }

  /** A killer is accepted exactly when it names, on one line, a function called a test,
      at most one class deep, that its module under tests defines. */
  lemma KillerMeans(tree: Tree, defined: Defined, names: seq<string>)
    requires |names| >= 2 && forall i :: 0 <= i < |names| ==> Lacks(':', names[i])
    ensures KillerOk(tree, defined, JoinNames(names)) <==>
      && StartsWith(JoinNames(names), "tests/") && |names| <= 3
      && (forall i :: 0 <= i < |JoinNames(names)| ==> JoinNames(names)[i] as int !in {0, 10, 13})
      && SafeTarget(tree, names[0]) && StartsWith(names[|names| - 1], "test_")
      && defined(Universal(tree[names[0]]), names[1..])
  {
    hide SplitOn, SafeTarget, OneLine, Universal, StartsWith, JoinNames;
    NodeNames(names);
    OneLineIs(JoinNames(names));
    TargetIn(tree, names[0]);
  }

  lemma OneLineIs(s: string)
    ensures OneLine(s) <==> forall i :: 0 <= i < |s| ==> s[i] as int !in {0, 10, 13}
  {
  }

  lemma TargetIn(tree: Tree, t: string)
    ensures SafeTarget(tree, t) ==> t in tree
  {
  }

  lemma FirstPart(x: string, parts: seq<string>)
    requires parts != [] && Lacks('/', x) && forall i :: 0 <= i < |parts| ==> Lacks('/', parts[i])
    ensures
      StartsWith(Join('/', parts), x + "/") <==> |parts| >= 2 && parts[0] == x
  {
    var t, p := Join('/', parts), x + "/";
    if |parts| >= 2 {
      FindAt('/', parts[0], Join('/', parts[1..]));
      assert t[..|parts[0]|] == parts[0];
      if parts[0] == x {
        assert t[..|p|] == p;
      }
    }
    if StartsWith(t, p) {
      assert p[|x|] == '/' && t[..|p|][|x|] == t[|x|];
      assert forall k :: 0 <= k < |x| ==> t[..|p|][k] == t[k] && p[k] == x[k];
      assert t[..|x|] == x;
    }
  }

  /** A target is a file of the tree below the sources or the tests, named without a step up
      and without a backslash. */
  lemma TargetMeans(tree: Tree, parts: seq<string>)
    requires parts != [] && forall i :: 0 <= i < |parts| ==> Lacks('/', parts[i])
    ensures SafeTarget(tree, Join('/', parts)) <==>
      && Join('/', parts) in tree
      && ((|parts| >= 3 && parts[0] == "src" && parts[1] == "sol_claude_dispatcher")
          || (|parts| >= 2 && parts[0] == "tests"))
      && forall i :: 0 <= i < |parts| ==> parts[i] != ".." && Lacks('\\', parts[i])
  {
    SplitJoin('/', parts);
    JoinLacks('\\', parts);
    WholePrefix();
    FirstPart("tests", parts);
    FirstTwoParts("src", "sol_claude_dispatcher", parts);
    hide Join, Split, Lacks, StartsWith;
    assert ".." in parts <==> exists i :: 0 <= i < |parts| && parts[i] == "..";
  }

  lemma CutFirst(parts: seq<string>)
    requires |parts| >= 2
    ensures Join('/', parts) == parts[0] + "/" + Join('/', parts[1..])
  {
  }

  lemma FirstTwoParts(x: string, y: string, parts: seq<string>)
    requires parts != [] && forall i :: 0 <= i < |parts| ==> Lacks('/', parts[i])
    requires Lacks('/', x) && Lacks('/', y)
    ensures StartsWith(Join('/', parts), (x + "/") + (y + "/")) <==> |parts| >= 3 && parts[0] == x && parts[1] == y
  {
    hide Lacks, Join, StartsWith;
    FirstPart(x, parts);
    if |parts| >= 2 && parts[0] == x {
      CutFirst(parts);
      FirstPart(y, parts[1..]);
      PrefixBehind(x + "/", y + "/", Join('/', parts[1..]));
    } else {
      ShorterPrefix(x + "/", y + "/", Join('/', parts));
    }
  }

  lemma WholePrefix()
    ensures "src" + "/" == "src/" && "sol_claude_dispatcher" + "/" == "sol_claude_dispatcher/"
    ensures "tests" + "/" == "tests/" && Lacks('/', "tests")
    ensures "src/" + "sol_claude_dispatcher/" == "src/sol_claude_dispatcher/"
    ensures Lacks('/', "src") && Lacks('/', "sol_claude_dispatcher")
  {
  }

  lemma ShorterPrefix(a: string, b: string, t: string)
    ensures StartsWith(t, a + b) ==> StartsWith(t, a)
  {
    if StartsWith(t, a + b) {
      assert t[..|a|] == t[..|a + b|][..|a|] == a;
    }
  }

  lemma PrefixBehind(a: string, b: string, rest: string)
    ensures StartsWith(a + rest, a + b) <==> StartsWith(rest, b)
  {
    if |b| <= |rest| {
      assert (a + rest)[..|a + b|] == a + rest[..|b|];
      assert (a + rest[..|b|])[|a|..] == rest[..|b|] && (a + b)[|a|..] == b;
    }
  }

  lemma {:induction false} JoinLacks(c: char, parts: seq<string>)
    requires parts != [] && c != '/'
    ensures Lacks(c, Join('/', parts)) <==> forall i :: 0 <= i < |parts| ==> Lacks(c, parts[i])
  {
    if |parts| > 1 {
      JoinLacks(c, parts[1..]);
      var head, tail := parts[0] + ['/'], Join('/', parts[1..]);
      LacksAppend(c, head, tail);
      LacksAppend(c, parts[0], ['/']);
      assert forall i :: 0 < i < |parts| ==> parts[i] == parts[1..][i - 1];
      if forall i :: 0 <= i < |parts| ==> Lacks(c, parts[i]) {
        assert forall i :: 0 <= i < |parts[1..]| ==> parts[1..][i] == parts[i + 1];
      }
    }
  }

  lemma LacksAppend(c: char, a: string, b: string)
    ensures Lacks(c, a + b) <==> Lacks(c, a) && Lacks(c, b)
  {
    if Lacks(c, a + b) {
      assert forall i :: 0 <= i < |a| ==> (a + b)[i] == a[i];
      assert forall i :: 0 <= i < |b| ==> (a + b)[|a| + i] == b[i];
    }
  }

  /** The letters agree, whatever their case. */
  predicate SameLetters(a: string, lower: string) {
    |a| == |lower| && forall k :: 0 <= k < |a| ==>
      a[k] == lower[k] || ('a' <= lower[k] <= 'z' && a[k] as int == lower[k] as int - 32)
  }

  /** A node is one of the matrix when one of three words occurs in it, whatever its case. */
  lemma MatrixMeans(node: string)
    ensures IsMatrixNode(node) <==>
      exists i, j :: 0 <= i <= j <= |node|
        && (SameLetters(node[i..j], "matrix") || SameLetters(node[i..j], "120x2") || SameLetters(node[i..j], "120_x_2"))
  {
    hide OccursAt, Occurs, SameLetters;
    var l := ToLower(node);
    WordOccurs(node, "matrix");
    WordOccurs(node, "120x2");
    WordOccurs(node, "120_x_2");
  }

  lemma {:induction false} LowerIs(s: string)
    ensures |ToLower(s)| == |s|
    ensures forall k :: 0 <= k < |s| ==> ToLower(s)[k] == Lower(s[k])
  {
    if s != "" {
      LowerIs(s[1..]);
    }
  }

  lemma LettersAgree(piece: string, lower: string, word: string)
    requires |piece| == |lower| == |word| && forall k :: 0 <= k < |word| ==> lower[k] == Lower(piece[k])
    requires forall k :: 0 <= k < |word| ==> !('A' <= word[k] <= 'Z')
    ensures lower == word <==> SameLetters(piece, word)
  {
    forall k | 0 <= k < |word|
      ensures lower[k] == word[k] <==>
        piece[k] == word[k] || ('a' <= word[k] <= 'z' && piece[k] as int == word[k] as int - 32)
    {
    }
  }

  lemma WordAt(node: string, word: string, i: nat)
    requires i + |word| <= |node| && forall k :: 0 <= k < |word| ==> !('A' <= word[k] <= 'Z')
    ensures OccursAt(word, ToLower(node), i) <==> SameLetters(node[i..i + |word|], word)
  {
    hide ToLower, SameLetters, Lower;
    LowerIs(node);
    LettersAgree(node[i..i + |word|], ToLower(node)[i..i + |word|], word);
  }

  lemma WordOccurs(node: string, word: string)
    requires word != "" && forall k :: 0 <= k < |word| ==> !('A' <= word[k] <= 'Z')
    ensures Occurs(word, ToLower(node)) <==> exists i, j :: 0 <= i <= j <= |node| && SameLetters(node[i..j], word)
  {
    hide Occurs, ToLower, Lower;
    LowerIs(node);
    OccursIff(word, ToLower(node));
    if i :| OccursAt(word, ToLower(node), i) {
      WordAt(node, word, i);
    }
    if i, j :| 0 <= i <= j <= |node| && SameLetters(node[i..j], word) {
      WordAt(node, word, i);
    }
  }

  // ------------------------------------------------------------- validation

  /** What an error says is wrong with an invariant row. */
  predicate RowFault(known: seq<string>, tree: Tree, defined: Defined, inv: Invariant, e: RegistryError) {
    match e
    case NoMutant(id) => id == inv.id && inv.mutants == []
    case NoKiller(id) => id == inv.id && inv.killers == []
    case UnknownMutants(id) => id == inv.id && exists x :: x in inv.mutants && x !in known
    case OnlyMatrixKillers(id) => id == inv.id && forall n :: n in inv.killers ==> IsMatrixNode(n)
    case BadKiller(node) => node in inv.killers && !KillerOk(tree, defined, node)
    case _ => false
  }

  /** What an error says is wrong with a mutation declaration. */
  predicate DeclarationFault(tree: Tree, mu: Mutation, e: RegistryError) {
    match e
    case BadTarget(id) => id == mu.id && !SafeTarget(tree, mu.target)
    case AnchorCount(id, n) =>
      id == mu.id && SafeTarget(tree, mu.target) && n != 1 && n == Count(mu.anchor, Universal(tree[mu.target]))
    case SameReplacement(id) => id == mu.id && mu.anchor == mu.replacement
    case _ => false
  }

  /** The error names something that is wrong with the registry. */
  predicate Justified(reg: Registry, tree: Tree, defined: Defined, e: RegistryError) {
    match e
    case UnsupportedSchema => reg.schemaVersion != 1
    case DuplicateImplemented => !NoDuplicates(reg.implemented)
    case DuplicateInvariant => !NoDuplicates(InvariantIds(reg.invariants))
    case MappingNotTotal => !SameMembers(reg.implemented, InvariantIds(reg.invariants))
    case DuplicateMutation => !NoDuplicates(MutationIds(reg.mutations))
    case DuplicateMapping => !NoDuplicates(Mapped(reg.invariants))
    case Unmapped => exists x :: x in MutationIds(reg.mutations) && x !in Mapped(reg.invariants)
    case _ =>
      || (exists inv :: inv in reg.invariants && RowFault(MutationIds(reg.mutations), tree, defined, inv, e))
      || (exists mu :: mu in reg.mutations && DeclarationFault(tree, mu, e))
  }

  /** Errors about the registry as a whole. */
  predicate AboutAll(e: RegistryError) {
    || e.UnsupportedSchema? || e.DuplicateImplemented? || e.DuplicateInvariant? || e.MappingNotTotal?
    || e.DuplicateMutation? || e.DuplicateMapping? || e.Unmapped?
  }

  /** The checks of one invariant row, in order. */
  method CheckInvariant(known: seq<string>, tree: Tree, defined: Defined, inv: Invariant)
    returns (e: Option<RegistryError>)
    ensures e.None? <==> InvariantOk(known, tree, defined, inv)
    ensures e.Some? ==> !AboutAll(e.value) && RowFault(known, tree, defined, inv, e.value)
  {
    hide IsMatrixNode, KillerOk;
    if inv.mutants == [] {
      return Some(NoMutant(inv.id));
    }
    if inv.killers == [] {
      return Some(NoKiller(inv.id));
    }
    if exists x :: x in inv.mutants && x !in known {
      return Some(UnknownMutants(inv.id));
    }
    if forall n :: n in inv.killers ==> IsMatrixNode(n) {
      return Some(OnlyMatrixKillers(inv.id));
    }
    for i := 0 to |inv.killers|
      invariant forall k :: 0 <= k < i ==> KillerOk(tree, defined, inv.killers[k])
    {
      if !KillerOk(tree, defined, inv.killers[i]) {
        return Some(BadKiller(inv.killers[i]));
      }
    }
    return None;
  }

  method CheckMutation(tree: Tree, mu: Mutation) returns (e: Option<RegistryError>)
    ensures e.None? <==> MutationOk(tree, mu)
    ensures e.Some? ==> !AboutAll(e.value) && DeclarationFault(tree, mu, e.value)
  {
    hide SafeTarget, Count, Universal;
    if !SafeTarget(tree, mu.target) {
      return Some(BadTarget(mu.id));
    }
    TargetThere(tree, mu.target);
    var count := Count(mu.anchor, Universal(tree[mu.target]));
    if count != 1 {
      return Some(AnchorCount(mu.id, count));
    }
    if mu.anchor == mu.replacement {
      return Some(SameReplacement(mu.id));
    }
    return None;
  }

  lemma TargetThere(tree: Tree, t: string)
    requires SafeTarget(tree, t)
    ensures t in tree
  {
  }

  /** The loop over the invariants: their rows are checked and their mutants collected. */
  method CheckInvariants(reg: Registry, tree: Tree, defined: Defined)
    returns (e: Option<RegistryError>, mapped: seq<string>)
    ensures e.None? <==> AllInvariantsOk(reg, tree, defined)
    ensures e.Some? ==> !AboutAll(e.value) && Justified(reg, tree, defined, e.value)
    ensures e.None? ==> mapped == Mapped(reg.invariants)
  {
    hide InvariantOk, RowFault;
    mapped := [];
    for i := 0 to |reg.invariants|
      invariant forall k :: 0 <= k < i ==> InvariantOk(MutationIds(reg.mutations), tree, defined, reg.invariants[k])
      invariant mapped == Mapped(reg.invariants[..i])
    {
      var inv := reg.invariants[i];
      e := CheckInvariant(MutationIds(reg.mutations), tree, defined, inv);
      if e.Some? {
        return;
      }
      mapped := mapped + inv.mutants;
      assert reg.invariants[..i + 1][..i] == reg.invariants[..i];
    }
    assert reg.invariants[..|reg.invariants|] == reg.invariants;
    e := None;
  }

  /** `validate_registry` */
  method Validate(reg: Registry, tree: Tree, defined: Defined) returns (e: Option<RegistryError>)
    ensures e.None? <==> Accepted(reg, tree, defined)
    ensures e.Some? ==> Justified(reg, tree, defined, e.value)
  {
    hide InvariantOk, RowFault, DeclarationFault, MutationOk, NoDuplicates;
    hide Mapped, MutationIds, InvariantIds, SameMembers, AllInvariantsOk;
    if reg.schemaVersion != 1 {
      return Some(UnsupportedSchema);
    }
    if !NoDuplicates(reg.implemented) {
      return Some(DuplicateImplemented);
    }
    if !NoDuplicates(InvariantIds(reg.invariants)) {
      return Some(DuplicateInvariant);
    }
    if !SameMembers(reg.implemented, InvariantIds(reg.invariants)) {
      return Some(MappingNotTotal);
    }
    if !NoDuplicates(MutationIds(reg.mutations)) {
      return Some(DuplicateMutation);
    }
    var mapped;
    e, mapped := CheckInvariants(reg, tree, defined);
    if e.Some? {
      return;
    }
    if !NoDuplicates(mapped) {
      return Some(DuplicateMapping);
    }
    MappedAreKnown(reg, tree, defined);
    if exists x :: x in MutationIds(reg.mutations) && x !in mapped {
      return Some(Unmapped);
    }
    for i := 0 to |reg.mutations|
      invariant forall k :: 0 <= k < i ==> MutationOk(tree, reg.mutations[k])
    {
      e := CheckMutation(tree, reg.mutations[i]);
      if e.Some? {
        return;
      }
    }
    e := None;
  }

  lemma {:induction false} MappedMembers(invs: seq<Invariant>, x: string)
    ensures x in Mapped(invs) <==> exists inv :: inv in invs && x in inv.mutants
  {
    if invs != [] {
      MappedMembers(invs[..|invs| - 1], x);
      assert invs == invs[..|invs| - 1] + [invs[|invs| - 1]];
    }
  }

  /** With checked rows, only the unmapped side can be missing. */
  lemma MappedAreKnown(reg: Registry, tree: Tree, defined: Defined)
    requires AllInvariantsOk(reg, tree, defined)
    ensures SameMembers(MutationIds(reg.mutations), Mapped(reg.invariants))
       <==> forall x :: x in MutationIds(reg.mutations) ==> x in Mapped(reg.invariants)
  {
    hide Mapped, IsMatrixNode;
    forall x | x in Mapped(reg.invariants)
      ensures x in MutationIds(reg.mutations)
    {
      MappedMembers(reg.invariants, x);
    }
  }

  // ---------------------------------------------------------- the owner map

  /** `{mutant: invariant for invariant in … for mutant in …}`: a later pair overwrites. */
  function Owners(invs: seq<Invariant>): map<string, Invariant> {
    if invs == [] then map[]
    else
      var last := invs[|invs| - 1];
      Owners(invs[..|invs| - 1]) + map x | x in last.mutants :: last
  }

  method OwnerMap(invs: seq<Invariant>) returns (owners: map<string, Invariant>)
    ensures owners == Owners(invs)
  {
    hide Owners;
    owners := map[];
    NoOwners();
    assert invs[..0] == [];
    for i := 0 to |invs|
      invariant owners == Owners(invs[..i])
    {
      var inv := invs[i];
      ghost var before := owners;
      for j := 0 to |inv.mutants|
        invariant owners == before + map x | x in inv.mutants[..j] :: inv
      {
        assert inv.mutants[..j + 1] == inv.mutants[..j] + [inv.mutants[j]];
        owners := owners[inv.mutants[j] := inv];
      }
      assert inv.mutants[..|inv.mutants|] == inv.mutants;
      OwnersStep(invs, i);
    }
    assert invs[..|invs|] == invs;
  }

  lemma NoOwners()
    ensures Owners([]) == map[]
  {
  }

  lemma OwnersStep(invs: seq<Invariant>, i: nat)
    requires i < |invs|
    ensures Owners(invs[..i + 1]) == Owners(invs[..i]) + map x | x in invs[i].mutants :: invs[i]
  {
    assert invs[..i + 1][..i] == invs[..i];
  }

  lemma {:induction false} OwnersNotOverwritten(invs: seq<Invariant>)
    requires NoDuplicates(Mapped(invs))
    ensures forall x :: x in Owners(invs) <==> x in Mapped(invs)
    ensures forall inv, x :: inv in invs && x in inv.mutants ==> x in Owners(invs) && Owners(invs)[x] == inv
  {
    if invs != [] {
      var n := |invs| - 1;
      var init, last := invs[..n], invs[n];
      var a := Mapped(init);
      assert Mapped(invs) == a + last.mutants;
      assert NoDuplicates(a) by {
        assert forall i :: 0 <= i < |a| ==> (a + last.mutants)[i] == a[i];
      }
      OwnersNotOverwritten(init);
      assert invs == init + [last];
      forall inv, x | inv in init && x in inv.mutants
        ensures x !in last.mutants
      {
        MappedMembers(init, x);
        Apart(a, last.mutants, x);
      }
    }
  }

  lemma Apart(a: seq<string>, b: seq<string>, x: string)
    requires NoDuplicates(a + b) && x in a
    ensures x !in b
  {
    var i :| 0 <= i < |a| && a[i] == x;
    forall j | 0 <= j < |b|
      ensures b[j] != x
    {
      assert (a + b)[i] == x && (a + b)[|a| + j] == b[j];
    }
  }

  /** With an accepted registry the owner map is total on the declared mutations,
      each has exactly one invariant naming it, nothing was overwritten, and every
      invariant owns something. */
  lemma OwnersAreTotal(reg: Registry, tree: Tree, defined: Defined)
    requires Accepted(reg, tree, defined)
    ensures forall x :: x in Owners(reg.invariants) <==> x in MutationIds(reg.mutations)
    ensures forall inv, x :: inv in reg.invariants && x in inv.mutants ==>
      x in Owners(reg.invariants) && Owners(reg.invariants)[x] == inv
    ensures forall inv :: inv in reg.invariants ==>
      exists x :: x in Owners(reg.invariants) && Owners(reg.invariants)[x] == inv
    ensures forall x :: x in Owners(reg.invariants) ==>
      Owners(reg.invariants)[x] in reg.invariants && x in Owners(reg.invariants)[x].mutants
  {
    hide Owners, Mapped, MutationOk, IsMatrixNode, NoDuplicates, MutationIds;
    OwnersNotOverwritten(reg.invariants);
    forall inv | inv in reg.invariants
      ensures exists x :: x in Owners(reg.invariants) && Owners(reg.invariants)[x] == inv
    {
      assert InvariantOk(MutationIds(reg.mutations), tree, defined, inv);
      var x := inv.mutants[0];
      assert x in inv.mutants;
      assert x in Owners(reg.invariants) && Owners(reg.invariants)[x] == inv;
    }
    forall x | x in Owners(reg.invariants)
      ensures Owners(reg.invariants)[x] in reg.invariants && x in Owners(reg.invariants)[x].mutants
    {
      MappedMembers(reg.invariants, x);
    }
  }

  lemma AcceptedRows(reg: Registry, tree: Tree, defined: Defined)
    requires AllInvariantsOk(reg, tree, defined)
    ensures forall inv :: inv in reg.invariants ==>
      && (exists a :: a in reg.mutations && a.id in inv.mutants)
      && (forall n :: n in inv.killers ==> KillerOk(tree, defined, n))
      && (exists n :: n in inv.killers && !IsMatrixNode(n))
  {
    hide KillerOk, IsMatrixNode;
    var mus := MutationIds(reg.mutations);
    forall inv | inv in reg.invariants
      ensures exists a :: a in reg.mutations && a.id in inv.mutants
    {
      var x := inv.mutants[0];
      assert x in inv.mutants && x in mus;
      var i :| 0 <= i < |mus| && mus[i] == x;
      assert reg.mutations[i] in reg.mutations;
    }
  }

  lemma InvariantsUnique(invs: seq<Invariant>)
    requires NoDuplicates(InvariantIds(invs))
    ensures forall id :: id in InvariantIds(invs) <==> exists inv :: inv in invs && inv.id == id
    ensures forall a, b :: a in invs && b in invs && a.id == b.id ==> a == b
  {
    var ids := InvariantIds(invs);
    forall inv | inv in invs
      ensures inv.id in ids
    {
      var i :| 0 <= i < |invs| && invs[i] == inv;
      assert ids[i] == inv.id;
    }
    forall a, b | a in invs && b in invs && a.id == b.id
      ensures a == b
    {
      var i :| 0 <= i < |invs| && invs[i] == a;
      var j :| 0 <= j < |invs| && invs[j] == b;
      assert ids[i] == ids[j];
    }
  }

  lemma MutationsUnique(mus: seq<Mutation>)
    requires NoDuplicates(MutationIds(mus))
    ensures forall a :: a in mus ==> a.id in MutationIds(mus)
    ensures forall a, b :: a in mus && b in mus && a.id == b.id ==> a == b
  {
    var ids := MutationIds(mus);
    forall a | a in mus
      ensures a.id in ids
    {
      var i :| 0 <= i < |mus| && mus[i] == a;
      assert ids[i] == a.id;
    }
    forall a, b | a in mus && b in mus && a.id == b.id
      ensures a == b
    {
      var i :| 0 <= i < |mus| && mus[i] == a;
      var j :| 0 <= j < |mus| && mus[j] == b;
      assert ids[i] == ids[j];
    }
  }

  /** What acceptance buys: the implemented invariants are those with a row, each with exactly
      one; every mutation has an id of its own and a row; and every row names a declared
      mutation, only killers that are accepted, and one that is no matrix node. */
  lemma AcceptedBuys(reg: Registry, tree: Tree, defined: Defined)
    requires Accepted(reg, tree, defined)
    ensures reg.schemaVersion == 1 && NoDuplicates(reg.implemented)
    ensures forall id :: id in reg.implemented <==> exists inv :: inv in reg.invariants && inv.id == id
    ensures forall a, b :: a in reg.invariants && b in reg.invariants && a.id == b.id ==> a == b
    ensures forall a, b :: a in reg.mutations && b in reg.mutations && a.id == b.id ==> a == b
    ensures forall a :: a in reg.mutations ==> exists inv :: inv in reg.invariants && a.id in inv.mutants
    ensures forall inv :: inv in reg.invariants ==>
      && (exists a :: a in reg.mutations && a.id in inv.mutants)
      && (forall n :: n in inv.killers ==> KillerOk(tree, defined, n))
      && (exists n :: n in inv.killers && !IsMatrixNode(n))
  {
    InvariantsUnique(reg.invariants);
    MutationsUnique(reg.mutations);
    AcceptedRows(reg, tree, defined);
    hide NoDuplicates, InvariantOk, AllInvariantsOk;
    hide MutationOk, Mapped, KillerOk, IsMatrixNode, InvariantIds, MutationIds;
    forall a | a in reg.mutations
      ensures exists inv :: inv in reg.invariants && a.id in inv.mutants
    {
      MappedMembers(reg.invariants, a.id);
    }
  }

  // ---------------------------------------------------------------- the run

  /** SHA-256 of a test run's output, taken as injective. */
  datatype Digest = Sha256(of: string)

  datatype Outcome = Outcome(
    id: string, invariantId: string, caught: bool, targeted: int, full: Option<int>, firstKiller: Option<string>,
    output: Digest)

  /** What a test run ends with. */
  datatype Exit = Exit(code: int, output: string)

  function Mutate(mu: Mutation, text: string): string {
    ReplaceFirst(mu.anchor, mu.replacement, text)
  }

  function MutatedTree(tree: Tree, mu: Mutation): Tree
    requires mu.target in tree
  {
    tree[mu.target := Mutate(mu, tree[mu.target])]
  }

  /** Pytest's run on a tree, for given nodes or (no nodes) the whole suite. */
  type Tests = (Tree, seq<string>) -> Exit

  function OutcomeOf(tree: Tree, mu: Mutation, owner: Invariant, tests: Tests, full: bool): Outcome
    requires mu.target in tree && owner.killers != []
  {
    var mutated := MutatedTree(tree, mu);
    var run := tests(mutated, owner.killers);
    Outcome(mu.id, owner.id, run.code != 0, run.code,
            if full then Some(tests(mutated, []).code) else None,
            if run.code != 0 then Some(owner.killers[0]) else None,
            Sha256(run.output))
  }

  /** The text with the leftmost anchor replaced; without one it is unchanged. */
  ghost predicate LeftmostReplaced(raw: string, anchor: string, replacement: string, text: string) {
    && (forall i: nat :: LeftmostAt(anchor, raw, i) ==> text == raw[..i] + replacement + raw[i + |anchor|..])
    && ((forall i: nat :: !OccursAt(anchor, raw, i)) ==> text == raw)
  }

  predicate LeftmostAt(anchor: string, raw: string, i: nat) {
    OccursAt(anchor, raw, i) && forall j :: 0 <= j < i ==> !OccursAt(anchor, raw, j)
  }

  lemma MutateReplaces(mu: Mutation, raw: string, text: string)
    requires LeftmostReplaced(raw, mu.anchor, mu.replacement, text)
    ensures text == Mutate(mu, raw)
  {
    hide IndexOf, OccursAt;
    ReplaceChanges(mu.anchor, mu.replacement, raw);
    OccursIff(mu.anchor, raw);
    var i := IndexOf(mu.anchor, raw);
    if i < |raw| {
      assert LeftmostAt(mu.anchor, raw, i);
    }
  }

  /** What is reported of a mutation: the killers are run on a copy in which the leftmost
      anchor of the one file is replaced; it is caught exactly when they fail, and then the
      first killer is named; the whole suite is run on that copy only when asked for. */
  lemma OutcomeMeans(tree: Tree, mu: Mutation, owner: Invariant, tests: Tests, full: bool, text: string)
    requires mu.target in tree && owner.killers != []
    requires LeftmostReplaced(tree[mu.target], mu.anchor, mu.replacement, text)
    ensures
      var clone := tree[mu.target := text];
      var run, whole, o := tests(clone, owner.killers), tests(clone, []), OutcomeOf(tree, mu, owner, tests, full);
      && o.id == mu.id && o.invariantId == owner.id
      && (o.caught <==> run.code != 0) && o.targeted == run.code && o.output == Sha256(run.output)
      && (if o.caught then o.firstKiller == Some(owner.killers[0]) else o.firstKiller == None)
      && (if full then o.full == Some(whole.code) else o.full == None)
  {
    MutateReplaces(mu, tree[mu.target], text);
  }

  function ById(): Mutation -> string {
    (mu: Mutation) => mu.id
  }

  /** The mutations in the order they are run. */
  function InOrder(reg: Registry): seq<Mutation> {
    SortBy(reg.mutations, ById())
  }

  /** A mutation can be run: its owner and its target are known. */
  predicate Runnable(tree: Tree, owners: map<string, Invariant>, mu: Mutation) {
    mu.id in owners && owners[mu.id].killers != [] && mu.target in tree
  }

  lemma AllRunnable(reg: Registry, tree: Tree, defined: Defined, mu: Mutation)
    requires Accepted(reg, tree, defined) && mu in InOrder(reg)
    ensures mu in reg.mutations && Runnable(tree, Owners(reg.invariants), mu)
  {
    hide Owners, Mapped, IsMatrixNode, NoDuplicates, SortBy, Count, Universal;
    OwnersAreTotal(reg, tree, defined);
    SortBySorts(reg.mutations, ById());
    assert mu in multiset(InOrder(reg));
    assert mu in reg.mutations;
    var k :| 0 <= k < |reg.mutations| && reg.mutations[k] == mu;
    assert MutationIds(reg.mutations)[k] == mu.id;
    assert MutationOk(tree, mu);
    assert InvariantOk(MutationIds(reg.mutations), tree, defined, Owners(reg.invariants)[mu.id]);
  }

  /** `execute_mutations` on a validated registry: one result for every mutation, in
      the order of the ids, each on a copy with that one mutation. */
  method ExecuteMutations(reg: Registry, tree: Tree, tests: Tests, full: bool, ghost defined: Defined)
    returns (results: seq<Outcome>)
    requires Accepted(reg, tree, defined)
    ensures |results| == |InOrder(reg)|
    ensures forall k :: 0 <= k < |results| ==>
      var mu := InOrder(reg)[k];
      && Runnable(tree, Owners(reg.invariants), mu)
      && results[k] == OutcomeOf(tree, mu, Owners(reg.invariants)[mu.id], tests, full)
  {
    hide Owners, SortBy, MutatedTree, Accepted;
    var owners := OwnerMap(reg.invariants);
    var order := InOrder(reg);
    results := [];
    for i := 0 to |order|
      invariant |results| == i
      invariant forall k :: 0 <= k < i ==>
        Runnable(tree, owners, order[k]) && results[k] == OutcomeOf(tree, order[k], owners[order[k].id], tests, full)
    {
      var mu := order[i];
      AllRunnable(reg, tree, defined, mu);
      var inv := owners[mu.id];
      var clone := MutatedTree(tree, mu);
      var targeted := tests(clone, inv.killers);
      var fullRun := None;
      if full {
        fullRun := Some(tests(clone, []).code);
      }
      var caught := targeted.code != 0;
      results := results + [Outcome(mu.id, inv.id, caught, targeted.code, fullRun,
                                    if caught then Some(inv.killers[0]) else None, Sha256(targeted.output))];
    }
  }

  /** The order of a run has ascending distinct ids, holds every declared mutation
      exactly once, and does not depend on the order of declaration. */
  lemma OrderIsCanonical(reg: Registry, other: Registry)
    requires NoDuplicates(MutationIds(reg.mutations)) && multiset(reg.mutations) == multiset(other.mutations)
    ensures multiset(InOrder(reg)) == multiset(reg.mutations)
    ensures SortedBy(InOrder(reg), ById()) && DistinctKeys(InOrder(reg), ById())
    ensures InOrder(reg) == InOrder(other)
  {
    hide SortBy;
    var ids := MutationIds(reg.mutations);
    assert DistinctKeys(reg.mutations, ById()) by {
      forall i, j | 0 <= i < j < |reg.mutations|
        ensures reg.mutations[i].id != reg.mutations[j].id
      {
        assert ids[i] != ids[j];
      }
    }
    SortBySorts(reg.mutations, ById());
    DistinctPermuted(reg.mutations, InOrder(reg), ById());
    SortByCanonical(reg.mutations, other.mutations, ById());
  }

  // ---------------------------------------------------------- the mutant text

  /** Of an accepted mutation: the mutant differs from the file as it is on disk
      exactly when the anchor occurs in those bytes; then they agree outside the
      leftmost anchor. Without carriage returns it occurs, at one place. */
  lemma MutantDiffersIff(tree: Tree, mu: Mutation)
    requires MutationOk(tree, mu)
    ensures
      var raw := tree[mu.target];
      && (Mutate(mu, raw) != raw <==> Occurs(mu.anchor, raw))
      && (Occurs(mu.anchor, raw) ==>
            var i := IndexOf(mu.anchor, raw);
            && raw == raw[..i] + mu.anchor + raw[i + |mu.anchor|..]
            && Mutate(mu, raw) == raw[..i] + mu.replacement + raw[i + |mu.anchor|..])
      && (Lacks('\r', raw) ==> Occurs(mu.anchor, raw) && Count(mu.anchor, raw) == 1)
  {
    hide Count, IndexOf, Universal;
    var raw := tree[mu.target];
    ReplaceChanges(mu.anchor, mu.replacement, raw);
    if Lacks('\r', raw) {
      UniversalFixed(raw);
      CountIsOne(mu.anchor, raw);
    }
  }

  /** Validation reads with newline translation, the run does not: an anchor across
      a line end of a "\r\n" file is accepted and then replaces nothing. */
  lemma CarriageReturnsDefeatAnchors(tree: Tree, mu: Mutation, x: string, y: string)
    requires SafeTarget(tree, mu.target) && mu.anchor != mu.replacement
    requires x != "" && Lacks('\r', x) && Lacks('\r', y)
    requires tree[mu.target] == x + "\r\n" + y && mu.anchor == x + "\n" + y
    ensures MutationOk(tree, mu) && Mutate(mu, tree[mu.target]) == tree[mu.target]
  {
    hide Count, IndexOf, Universal, SafeTarget;
    TargetThere(tree, mu.target);
    var raw := tree[mu.target];
    ReturnIsRead(x, y);
    OnlyItself(mu.anchor);
    forall k
      ensures !OccursAt(mu.anchor, raw, k)
    {
      ReturnInTheWay(x, y, k);
    }
    OccursIff(mu.anchor, raw);
    ReplaceChanges(mu.anchor, mu.replacement, raw);
  }

  lemma ReturnInTheWay(x: string, y: string, k: int)
    requires x != "" && Lacks('\r', x)
    ensures !OccursAt(x + "\n" + y, x + "\r\n" + y, k)
  {
    var anchor, raw := x + "\n" + y, x + "\r\n" + y;
    if 0 <= k <= 1 {
      assert raw[|x|] == '\r';
      assert raw[k..k + |anchor|][|x| - k] == raw[|x|];
      assert anchor[|x| - k] != '\r';
    }
  }

  lemma ReturnIsRead(x: string, y: string)
    requires Lacks('\r', x) && Lacks('\r', y)
    ensures Universal(x + "\r\n" + y) == x + "\n" + y
  {
    var tail := "\r\n" + y;
    assert x + "\r\n" + y == x + tail;
    assert tail[2..] == y;
    UniversalFixed(y);
    UniversalPrefix(x, tail);
    assert Universal(tail) == "\n" + y;
  }

  lemma OnlyItself(s: string)
    requires s != ""
    ensures Count(s, s) == 1
  {
    assert OccursAt(s, s, 0);
    IndexIs(s, s, 0);
    assert s[|s|..] == "";
  }
}
