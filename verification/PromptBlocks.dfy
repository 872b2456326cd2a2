/** The blocks `compose_worker_context` emits (src/sol_claude_dispatcher/worker_context.py)
    and their order. Texts are kept as their UTF-8 bytes. */
module PromptBlocks {
  import opened Common
  import opened Text
  import opened Sorting
  import opened Subsequences
  import opened LifecycleProjection
  import opened GateClaims

  // ------------------------------------------------------------------ skills

  datatype Support = Support(name: string, text: string)

  /** A verified skill, to be rendered as inert text. */
  datatype Skill = Skill(id: NonEmpty, displayName: NonEmpty, body: string, supports: seq<Support>)

  function Label(before: string, name: string, id: string): string {
    before + name + " [" + id + "] -----"
  }

  /** `s.strip("\n")` */
  function Trimmed(s: string): string {
    Strip(s, c => c == NEWLINE)
  }

  function SupportLines(supports: seq<Support>, id: string): seq<string> {
    if supports == [] then []
    else
      [ Label("----- BEGIN APPROVED SUPPORTING REFERENCE: ", supports[0].name, id),
        Trimmed(supports[0].text),
        Label("----- END APPROVED SUPPORTING REFERENCE: ", supports[0].name, id) ]
      + SupportLines(supports[1..], id)
  }

  function SkillHead(s: Skill): string {
    Label("----- BEGIN APPROVED GUIDANCE: ", s.displayName, s.id)
  }

  function SkillFoot(s: Skill): string {
    "----- END APPROVED GUIDANCE: [" + s.id + "] -----"
  }

  /** `ProjectedSkill.text` */
  function SkillText(s: Skill): string {
    Join(NEWLINE, [SkillHead(s), Trimmed(s.body)] + (SupportLines(s.supports, s.id) + [SkillFoot(s)]))
  }

  function SkillTexts(skills: seq<Skill>): (texts: seq<string>)
    ensures |texts| == |skills|
  {
    if skills == [] then [] else [SkillText(skills[0])] + SkillTexts(skills[1..])
  }

  // ------------------------------------------------------------------ blocks

  /** The two reviewed artifacts of one guidance scope. */
  datatype Scope = Scope(policy: string, source: string)

  /** What a prompt is composed from. The preamble is the fixed text of the dispatcher. */
  datatype Context = Context(
    policy: string, preamble: string, envelope: string, skills: seq<Skill>, core: seq<string>,
    scopes: seq<Scope>, clause: Option<string>)

  datatype Channel = System | Prompt

  datatype Block = Block(section: string, channel: Channel, text: string)

  /** The skills of one group, in their order. */
  function Group(c: Context, inCore: bool): seq<Skill> {
    Filter(c.skills, (s: Skill) => (s.id in c.core) == inCore)
  }

  function SkillBlock(section: string, group: seq<Skill>): seq<Block> {
    if group == [] then [] else [Block(section, System, JoinTexts(SkillTexts(group)))]
  }

  function SkillBlocks(c: Context): seq<Block> {
    SkillBlock("CORE_APPROVED_SKILLS", Group(c, true)) + SkillBlock("CONTEXTUAL_SKILLS", Group(c, false))
  }

  function ScopeArtifacts(scopes: seq<Scope>): seq<string> {
    if scopes == [] then [] else [scopes[0].policy, scopes[0].source] + ScopeArtifacts(scopes[1..])
  }

  function ClauseArtifacts(c: Context): seq<string> {
    match c.clause
    case None => []
    case Some(text) => [text]
  }

  function RootBlock(c: Context): seq<Block> {
    if c.scopes == [] then []
    else [Block("CURATED_ROOT_GUIDANCE", System, Concat(ScopeArtifacts(c.scopes[..1])))]
  }

  function SubprojectBlock(c: Context): seq<Block> {
    if |c.scopes| <= 1 then []
    else [Block("CURATED_IN_SCOPE_SUBPROJECT_GUIDANCE", System, Concat(ScopeArtifacts(c.scopes[1..])))]
  }

  function ClauseBlock(c: Context): seq<Block> {
    if c.scopes == [] || c.clause == None then []
    else [Block("GRAPH_REFRESH_CLAUSE", System, Concat(ClauseArtifacts(c)))]
  }

  function GuidanceBlocks(c: Context): seq<Block> {
    RootBlock(c) + (SubprojectBlock(c) + ClauseBlock(c))
  }

  function ProjectedBlocks(c: Context): seq<Block> {
    SkillBlocks(c) + GuidanceBlocks(c)
  }

  function PreambleBlock(c: Context): seq<Block> {
    if ProjectedBlocks(c) == [] then [] else [Block(PREAMBLE, System, c.preamble)]
  }

  /** The list `compose_worker_context` builds, before its final sort. */
  function Blocks(c: Context): seq<Block> {
    [Block("DISPATCHER_SYSTEM_POLICY", System, c.policy), Block("TASK_ENVELOPE", Prompt, c.envelope)]
    + (PreambleBlock(c) + ProjectedBlocks(c))
  }

  // ------------------------------------------------------------------- order

  /** `SECTION_ORDER.index(section)` */
  function Place(section: string): (i: nat)
    ensures i <= 8
    ensures i < 8 ==> SectionOrder()[i] == section
  {
    if section == "DISPATCHER_SYSTEM_POLICY" then 0
    else if section == "TASK_ENVELOPE" then 1
    else if section == PREAMBLE then 2
    else if section == "CORE_APPROVED_SKILLS" then 3
    else if section == "CONTEXTUAL_SKILLS" then 4
    else if section == "CURATED_ROOT_GUIDANCE" then 5
    else if section == "CURATED_IN_SCOPE_SUBPROJECT_GUIDANCE" then 6
    else if section == "GRAPH_REFRESH_CLAUSE" then 7
    else 8
  }

  /** The place as a one-character sort key. */
  function ByPlace(): Block -> string {
    (b: Block) => [('0' as int + Place(b.section)) as char]
  }

  /** The blocks as composed: sorted by the place of their sections. */
  function Ordered(c: Context): seq<Block> {
    SortBy(Blocks(c), ByPlace())
  }

  function Sections(blocks: seq<Block>): (r: seq<string>)
    ensures |r| == |blocks| && forall i :: 0 <= i < |r| ==> r[i] == blocks[i].section
  {
    if blocks == [] then [] else [blocks[0].section] + Sections(blocks[1..])
  }

  /** Places from `low` up to below `high`, each larger than the one before. */
  predicate Ascending(blocks: seq<Block>, low: nat, high: nat) {
    if blocks == [] then low <= high
    else low <= Place(blocks[0].section) < high && Ascending(blocks[1..], Place(blocks[0].section) + 1, high)
  }

  lemma {:induction false} AscendingAppend(a: seq<Block>, b: seq<Block>, low: nat, mid: nat, high: nat)
    requires Ascending(a, low, mid) && Ascending(b, mid, high)
    ensures Ascending(a + b, low, high)
    decreases |a|
  {
    if a == [] {
      assert a + b == b;
      AscendingLower(b, low, mid, high);
    } else {
      assert (a + b)[1..] == a[1..] + b;
      AscendingAppend(a[1..], b, Place(a[0].section) + 1, mid, high);
      AscendingRoom(b, mid, high);
    }
  }

  lemma AscendingLower(b: seq<Block>, low: nat, mid: nat, high: nat)
    requires low <= mid && Ascending(b, mid, high)
    ensures Ascending(b, low, high)
  {
  }

  lemma {:induction false} AscendingRoom(b: seq<Block>, low: nat, high: nat)
    requires Ascending(b, low, high)
    ensures low <= high
  {
    if b != [] {
      AscendingRoom(b[1..], Place(b[0].section) + 1, high);
    }
  }

  /** At most one block, of the section at this place. */
  lemma OneAscending(b: seq<Block>, section: string, k: nat)
    requires |b| <= 1 && (b != [] ==> b[0].section == section) && Place(section) == k
    ensures Ascending(b, k, k + 1)
  {
    if b != [] {
      assert b[1..] == [];
    }
  }

  lemma SkillBlocksAscend(c: Context)
    ensures Ascending(SkillBlocks(c), 3, 5)
  {
    hide Place, Ascending, Group, SkillTexts;
    Places();
    var core, contextual :=
      SkillBlock("CORE_APPROVED_SKILLS", Group(c, true)), SkillBlock("CONTEXTUAL_SKILLS", Group(c, false));
    OneAscending(core, "CORE_APPROVED_SKILLS", 3);
    OneAscending(contextual, "CONTEXTUAL_SKILLS", 4);
    AscendingAppend(core, contextual, 3, 4, 5);
  }

  lemma GuidanceBlocksAscend(c: Context)
    ensures Ascending(GuidanceBlocks(c), 5, 8)
  {
    hide Place, Ascending, ScopeArtifacts;
    Places();
    OneAscending(RootBlock(c), "CURATED_ROOT_GUIDANCE", 5);
    OneAscending(SubprojectBlock(c), "CURATED_IN_SCOPE_SUBPROJECT_GUIDANCE", 6);
    OneAscending(ClauseBlock(c), "GRAPH_REFRESH_CLAUSE", 7);
    AscendingAppend(SubprojectBlock(c), ClauseBlock(c), 6, 7, 8);
    AscendingAppend(RootBlock(c), SubprojectBlock(c) + ClauseBlock(c), 5, 6, 8);
  }

  lemma BlocksAscend(c: Context)
    ensures Ascending(Blocks(c), 0, 8) && Ascending(ProjectedBlocks(c), 3, 8)
  {
    hide Place, Ascending, SkillBlocks, GuidanceBlocks;
    Places();
    SkillBlocksAscend(c);
    GuidanceBlocksAscend(c);
    AscendingAppend(SkillBlocks(c), GuidanceBlocks(c), 3, 5, 8);
    OneAscending(PreambleBlock(c), PREAMBLE, 2);
    AscendingAppend(PreambleBlock(c), ProjectedBlocks(c), 2, 3, 8);
    var policy := [Block("DISPATCHER_SYSTEM_POLICY", System, c.policy)];
    var envelope := [Block("TASK_ENVELOPE", Prompt, c.envelope)];
    OneAscending(policy, "DISPATCHER_SYSTEM_POLICY", 0);
    OneAscending(envelope, "TASK_ENVELOPE", 1);
    AscendingAppend(policy, envelope, 0, 1, 2);
    AscendingAppend(policy + envelope, PreambleBlock(c) + ProjectedBlocks(c), 0, 2, 8);
    assert policy + envelope + (PreambleBlock(c) + ProjectedBlocks(c)) == Blocks(c);
  }

  lemma Places()
    ensures Place("DISPATCHER_SYSTEM_POLICY") == 0 && Place("TASK_ENVELOPE") == 1 && Place(PREAMBLE) == 2
    ensures Place("CORE_APPROVED_SKILLS") == 3 && Place("CONTEXTUAL_SKILLS") == 4
    ensures Place("CURATED_ROOT_GUIDANCE") == 5 && Place("CURATED_IN_SCOPE_SUBPROJECT_GUIDANCE") == 6
    ensures Place("GRAPH_REFRESH_CLAUSE") == 7
  {
  }

  lemma {:induction false} AscendingPlaces(blocks: seq<Block>, low: nat, high: nat)
    requires Ascending(blocks, low, high)
    ensures forall i :: 0 <= i < |blocks| ==> low <= Place(blocks[i].section) < high
    ensures forall i, j :: 0 <= i < j < |blocks| ==> Place(blocks[i].section) < Place(blocks[j].section)
  {
    hide Place;
    if blocks != [] {
      AscendingPlaces(blocks[1..], Place(blocks[0].section) + 1, high);
      assert forall i :: 0 < i < |blocks| ==> blocks[i] == blocks[1..][i - 1];
    }
  }

  /** The blocks come out of the list in order already: the final sort moves nothing. */
  lemma SortMovesNothing(c: Context)
    ensures Ordered(c) == Blocks(c)
  {
    hide Place, Blocks, Ascending, SortBy;
    BlocksAscend(c);
    AscendingPlaces(Blocks(c), 0, 8);
    var blocks := Blocks(c);
    forall i, j | 0 <= i < j < |blocks|
      ensures LexLe(ByPlace()(blocks[i]), ByPlace()(blocks[j])) && ByPlace()(blocks[i]) != ByPlace()(blocks[j])
    {
      assert Place(blocks[i].section) < Place(blocks[j].section);
      assert ByPlace()(blocks[i])[0] < ByPlace()(blocks[j])[0];
    }
    SortBySorts(blocks, ByPlace());
    SortedUnique(blocks, Ordered(c), ByPlace());
  }

  function PlacesOf(blocks: seq<Block>): (r: seq<nat>)
    ensures |r| == |blocks| && forall i :: 0 <= i < |r| ==> r[i] == Place(blocks[i].section)
  {
    if blocks == [] then [] else [Place(blocks[0].section)] + PlacesOf(blocks[1..])
  }

  /** The emitted sections follow the section order, and whenever anything is
      projected the preamble stands immediately before it. */
  lemma SectionsInOrder(c: Context)
    ensures Subsequence(Sections(Ordered(c)), SectionOrder())
    ensures ImmediatelyBefore(Sections(Ordered(c))) <==> ProjectedBlocks(c) != []
  {
    hide Place, Ascending, Blocks, ProjectedBlocks, ImmediatelyBefore, Subsequence, SectionOrder, Ordered;
    SortMovesNothing(c);
    BlocksAscend(c);
    SectionsEmbed(Blocks(c));
    PreambleInPlace(c);
  }

  lemma SectionsEmbed(blocks: seq<Block>)
    requires Ascending(blocks, 0, 8)
    ensures Embedding(PlacesOf(blocks), Sections(blocks), SectionOrder())
    ensures Subsequence(Sections(blocks), SectionOrder())
  {
    hide Place, Ascending, SectionOrder, Subsequence;
    AscendingPlaces(blocks, 0, 8);
    OrderLength();
    forall i | 0 <= i < |blocks|
      ensures SectionOrder()[PlacesOf(blocks)[i]] == blocks[i].section
    {
    }
    SubsequenceIsEmbedding(Sections(blocks), SectionOrder());
  }

  /** The sections with a place above two are projected ones; place two is the preamble's. */
  lemma PlaceTells(b: Block)
    requires Place(b.section) < 8
    ensures IsProjected(b.section) <==> Place(b.section) > 2
    ensures b.section == PREAMBLE <==> Place(b.section) == 2
  {
    OrderAround(Place(b.section));
  }

  lemma PreambleInPlace(c: Context)
    ensures ImmediatelyBefore(Sections(Blocks(c))) <==> ProjectedBlocks(c) != []
  {
    hide Place, Ascending, IsProjected, ProjectedBlocks, SectionOrder;
    BlocksAscend(c);
    var blocks, sections := Blocks(c), Sections(Blocks(c));
    AscendingPlaces(blocks, 0, 8);
    forall i | 0 <= i < |blocks|
      ensures IsProjected(sections[i]) <==> Place(blocks[i].section) > 2
    {
      PlaceTells(blocks[i]);
    }
    Places();
    if ProjectedBlocks(c) != [] {
      assert blocks[2].section == PREAMBLE && Place(blocks[2].section) < Place(blocks[3].section);
      assert PreambleAt(sections, 2);
    } else {
      assert |blocks| == 2 && !IsProjected(sections[1]);
    }
  }

  lemma OrderLength()
    ensures |SectionOrder()| == 8
  {
  }
}
