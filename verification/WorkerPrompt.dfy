/** The system prompt of one invocation: the joined blocks, the lifecycle text server.py
    appends, and what the load-time caps of src/sol_claude_dispatcher/config.py say about
    its length. Texts are kept as their UTF-8 bytes. */
module WorkerPrompt {
  import opened Common
  import opened Text
  import opened LifecycleProjection
  import opened GateClaims
  import opened Sorting
  import opened PromptBlocks
  import opened RunBudget
  import Lifecycle
  import Preflight

  // ------------------------------------------------------------------ prompt

  function SystemTexts(blocks: seq<Block>): seq<string> {
    if blocks == [] then []
    else (if blocks[0].channel == System then [blocks[0].text] else []) + SystemTexts(blocks[1..])
  }

  /** `WorkerContext.append_system_prompt` */
  function AppendSystemPrompt(c: Context): string {
    JoinTexts(SystemTexts(Ordered(c)))
  }

  /** What a run hands to the worker process, with the text of its lifecycle phase. */
  function SentPrompt(c: Context, lifecycle: string): string {
    Preflight.FinalPrompt(Measured(c, true), lifecycle)
  }

  /** What preflight measures for a phase: the prompt of the phase as the authored block. */
  function Measured(c: Context, reviewAvailable: bool): Preflight.Composition {
    Preflight.Composition(AppendSystemPrompt(c), "", 0, reviewAvailable)
  }

  // ---------------------------------------------------------- what it says

  /** Texts that follow another one, two newlines before each. */
  function Following(texts: seq<string>): string {
    if texts == [] then "" else "\n\n" + texts[0] + Following(texts[1..])
  }

  lemma FollowingCons(texts: seq<string>)
    requires texts != []
    ensures Following(texts) == "\n\n" + texts[0] + Following(texts[1..])
  {
  }

  lemma JoinTwo(text: string, rest: seq<string>)
    requires rest != []
    ensures JoinTexts([text] + rest) == text + "\n\n" + JoinTexts(rest)
  {
    assert ([text] + rest)[1..] == rest;
  }

  lemma {:induction false} JoinFollowing(text: string, rest: seq<string>)
    ensures JoinTexts([text] + rest) == text + Following(rest)
    decreases |rest|
  {
    if rest == [] {
      assert [text] + rest == [text];
    } else {
      JoinFollowing(rest[0], rest[1..]);
      JoinTwo(text, rest);
      FollowingCons(rest);
      hide JoinTexts, Following;
      assert rest == [rest[0]] + rest[1..];
      Regroup(text, "\n\n", rest[0]);
      Regroup(text, "\n\n" + rest[0], Following(rest[1..]));
      Regroup(text + "\n\n", rest[0], Following(rest[1..]));
    }
  }

  lemma {:induction false} FollowingAppend(a: seq<string>, b: seq<string>)
    ensures Following(a + b) == Following(a) + Following(b)
  {
    if a == [] {
      assert a + b == b;
    } else {
      assert (a + b)[1..] == a[1..] + b;
      FollowingAppend(a[1..], b);
    }
  }

  /** The texts of the scopes, each policy before its source. */
  function GuidanceText(scopes: seq<Scope>): string {
    if scopes == [] then "" else scopes[0].policy + scopes[0].source + GuidanceText(scopes[1..])
  }

  lemma {:induction false} GuidanceIs(scopes: seq<Scope>)
    ensures Concat(ScopeArtifacts(scopes)) == GuidanceText(scopes)
  {
    if scopes != [] {
      GuidanceIs(scopes[1..]);
      ConcatAppend([scopes[0].policy, scopes[0].source], ScopeArtifacts(scopes[1..]));
      assert Concat([scopes[0].policy, scopes[0].source]) == scopes[0].policy + scopes[0].source by {
        assert [scopes[0].policy, scopes[0].source][1..] == [scopes[0].source] && [scopes[0].source][1..] == [];
        assert scopes[0].source + [] == scopes[0].source;
      }
    }
  }

  /** One text behind the others, if it is there. */
  function Part(there: bool, text: string): string {
    if there then "\n\n" + text else ""
  }

  lemma PartIs(b: seq<Block>)
    requires |b| <= 1 && (b != [] ==> b[0].channel == System)
    ensures Following(SystemTexts(b)) == if b == [] then "" else "\n\n" + b[0].text
  {
    if b != [] {
      assert b == [b[0]];
      OneText(b[0]);
      assert [b[0].text][1..] == [];
    }
  }

  lemma SkillPart(section: string, group: seq<Skill>)
    ensures Following(SystemTexts(SkillBlock(section, group))) == Part(group != [], JoinTexts(SkillTexts(group)))
  {
    hide SkillTexts, JoinTexts, Following, SystemTexts;
    PartIs(SkillBlock(section, group));
  }

  lemma RootPart(c: Context)
    requires c.scopes != []
    ensures Following(SystemTexts(RootBlock(c))) == Part(true, c.scopes[0].policy + c.scopes[0].source)
  {
    hide Following, SystemTexts, Concat, ScopeArtifacts;
    PartIs(RootBlock(c));
    GuidanceIs(c.scopes[..1]);
    OneScope(c.scopes);
  }

  lemma OneScope(scopes: seq<Scope>)
    requires scopes != []
    ensures GuidanceText(scopes[..1]) == scopes[0].policy + scopes[0].source
  {
    assert scopes[..1][1..] == [];
    assert scopes[0].policy + scopes[0].source + "" == scopes[0].policy + scopes[0].source;
  }

  lemma OthersPart(c: Context)
    requires c.scopes != []
    ensures Following(SystemTexts(SubprojectBlock(c))) == Part(|c.scopes| > 1, GuidanceText(c.scopes[1..]))
  {
    hide Following, SystemTexts, Concat, ScopeArtifacts;
    PartIs(SubprojectBlock(c));
    GuidanceIs(c.scopes[1..]);
  }

  lemma ClausePart(c: Context)
    requires c.scopes != []
    ensures Following(SystemTexts(ClauseBlock(c)))
         == match c.clause { case None => "" case Some(text) => "\n\n" + text }
  {
    hide Following, SystemTexts, Concat;
    PartIs(ClauseBlock(c));
    if c.clause.Some? {
      OneArtifact(c.clause.value);
    }
  }

  lemma GuidancePart(c: Context)
    ensures Following(SystemTexts(GuidanceBlocks(c)))
         == if c.scopes == [] then ""
            else
              Part(true, c.scopes[0].policy + c.scopes[0].source) + Part(|c.scopes| > 1, GuidanceText(c.scopes[1..]))
              + (match c.clause case None => "" case Some(text) => "\n\n" + text)
  {
    var root, sub, clause := RootBlock(c), SubprojectBlock(c), ClauseBlock(c);
    if c.scopes == [] {
      assert GuidanceBlocks(c) == [];
    } else {
      RootPart(c);
      OthersPart(c);
      ClausePart(c);
      hide Following, SystemTexts, Part, RootBlock, SubprojectBlock, ClauseBlock, GuidanceText;
      SystemTextsAppend(sub, clause);
      SystemTextsAppend(root, sub + clause);
      FollowingAppend(SystemTexts(sub), SystemTexts(clause));
      FollowingAppend(SystemTexts(root), SystemTexts(sub) + SystemTexts(clause));
      Regroup(Following(SystemTexts(root)), Following(SystemTexts(sub)), Following(SystemTexts(clause)));
    }
  }

  lemma Regroup(x: string, y: string, z: string)
    ensures x + (y + z) == x + y + z
  {
  }

  lemma OneArtifact(text: string)
    ensures Concat([text]) == text
  {
    assert [text][1..] == [] && text + [] == text;
  }

  /** What the system prompt says, in this order: the policy; with any skill or guidance, the
      preamble; the core skills; the other skills; the root guidance, the guidance of the
      other scopes, and the clause; two newlines between them and between skills. */
  lemma PromptSays(c: Context)
    ensures
      var core := Filter(c.skills, (s: Skill) => s.id in c.core);
      var others := Filter(c.skills, (s: Skill) => s.id !in c.core);
      AppendSystemPrompt(c)
      == c.policy
         + (Part(core != [] || others != [] || c.scopes != [], c.preamble)
            + (Part(core != [], JoinTexts(SkillTexts(core))) + Part(others != [], JoinTexts(SkillTexts(others)))
               + (if c.scopes == [] then ""
                  else
                    Part(true, c.scopes[0].policy + c.scopes[0].source)
                    + Part(|c.scopes| > 1, GuidanceText(c.scopes[1..]))
                    + (match c.clause case None => "" case Some(text) => "\n\n" + text))))
  {
    var core := Filter(c.skills, (s: Skill) => s.id in c.core);
    var others := Filter(c.skills, (s: Skill) => s.id !in c.core);
    SameFilter(c.skills, (s: Skill) => s.id in c.core, (s: Skill) => (s.id in c.core) == true);
    SameFilter(c.skills, (s: Skill) => s.id !in c.core, (s: Skill) => (s.id in c.core) == false);
    assert Group(c, true) == core && Group(c, false) == others;
    hide Filter, Group, SystemTexts, Following, JoinTexts, SkillTexts, SortBy, GuidanceText, Concat, Part;
    SortMovesNothing(c);
    SystemPart(c);
    JoinFollowing(c.policy, SystemTexts(PreambleBlock(c) + ProjectedBlocks(c)));
    SystemTextsAppend(PreambleBlock(c), ProjectedBlocks(c));
    SystemTextsAppend(SkillBlocks(c), GuidanceBlocks(c));
    SystemTextsAppend(SkillBlock("CORE_APPROVED_SKILLS", core), SkillBlock("CONTEXTUAL_SKILLS", others));
    FollowingAppend(SystemTexts(PreambleBlock(c)), SystemTexts(ProjectedBlocks(c)));
    FollowingAppend(SystemTexts(SkillBlocks(c)), SystemTexts(GuidanceBlocks(c)));
    FollowingAppend(SystemTexts(SkillBlock("CORE_APPROVED_SKILLS", core)),
                    SystemTexts(SkillBlock("CONTEXTUAL_SKILLS", others)));
    PreamblePart(c, core, others);
    SkillPart("CORE_APPROVED_SKILLS", core);
    SkillPart("CONTEXTUAL_SKILLS", others);
    GuidancePart(c);
  }

  lemma PreamblePart(c: Context, core: seq<Skill>, others: seq<Skill>)
    requires Group(c, true) == core && Group(c, false) == others
    ensures Following(SystemTexts(PreambleBlock(c)))
         == Part(core != [] || others != [] || c.scopes != [], c.preamble)
  {
    hide Following, SystemTexts, Group, JoinTexts, SkillTexts;
    PartIs(PreambleBlock(c));
  }

  lemma {:induction false} SameFilter(skills: seq<Skill>, p: Skill -> bool, q: Skill -> bool)
    requires forall s :: p(s) == q(s)
    ensures Filter(skills, p) == Filter(skills, q)
  {
    if skills != [] {
      SameFilter(skills[1..], p, q);
    }
  }

  /** The supporting files of a skill as they are rendered, each on lines of its own. */
  function SupportText(supports: seq<Support>, id: string): string {
    if supports == [] then ""
    else
      ("----- BEGIN APPROVED SUPPORTING REFERENCE: " + supports[0].name + " [" + id + "] -----") + "\n"
      + Trimmed(supports[0].text) + "\n"
      + ("----- END APPROVED SUPPORTING REFERENCE: " + supports[0].name + " [" + id + "] -----") + "\n"
      + SupportText(supports[1..], id)
  }

  lemma ThreeLines(a: string, b: string, c: string, rest: seq<string>)
    requires rest != []
    ensures Join(NEWLINE, [a, b, c] + rest) == a + "\n" + b + "\n" + c + "\n" + Join(NEWLINE, rest)
  {
    assert [a, b, c] + rest == [a] + ([b] + ([c] + rest));
    JoinNext(a, [b] + ([c] + rest));
    JoinNext(b, [c] + rest);
    JoinNext(c, rest);
  }

  lemma {:induction false} SupportsJoined(supports: seq<Support>, id: string, last: string)
    ensures Join(NEWLINE, SupportLines(supports, id) + [last]) == SupportText(supports, id) + last
  {
    hide Trimmed, Join, Label;
    if supports == [] {
      assert [] + [last] == [last];
      OneLine(last);
    } else {
      SupportsJoined(supports[1..], id, last);
      var begin := Label("----- BEGIN APPROVED SUPPORTING REFERENCE: ", supports[0].name, id);
      var end := Label("----- END APPROVED SUPPORTING REFERENCE: ", supports[0].name, id);
      var text, rest := Trimmed(supports[0].text), SupportLines(supports[1..], id) + [last];
      assert SupportLines(supports, id) + [last] == [begin, text, end] + rest;
      ThreeLines(begin, text, end, rest);
      SupportCons(supports, id);
      hide SupportText, SupportLines;
      Regroup(begin + "\n" + text + "\n" + end + "\n", SupportText(supports[1..], id), last);
    }
  }

  lemma OneLine(last: string)
    ensures Join(NEWLINE, [last]) == last
  {
  }

  lemma SupportCons(supports: seq<Support>, id: string)
    requires supports != []
    ensures SupportText(supports, id)
         == Label("----- BEGIN APPROVED SUPPORTING REFERENCE: ", supports[0].name, id) + "\n"
            + Trimmed(supports[0].text) + "\n"
            + Label("----- END APPROVED SUPPORTING REFERENCE: ", supports[0].name, id) + "\n"
            + SupportText(supports[1..], id)
  {
  }

  lemma JoinNext(x: string, rest: seq<string>)
    requires rest != []
    ensures Join(NEWLINE, [x] + rest) == x + "\n" + Join(NEWLINE, rest)
  {
    assert ([x] + rest)[1..] == rest;
  }

  /** A skill is rendered between two delimiters, its body and supporting files without the
      newlines at their ends. */
  lemma SkillSays(s: Skill)
    ensures SkillText(s)
         == "----- BEGIN APPROVED GUIDANCE: " + s.displayName + " [" + s.id + "] -----\n"
            + (Trimmed(s.body) + "\n"
               + (SupportText(s.supports, s.id) + ("----- END APPROVED GUIDANCE: [" + s.id + "] -----")))
  {
    hide Trimmed, SupportText, SupportLines;
    var head := "----- BEGIN APPROVED GUIDANCE: " + s.displayName + " [" + s.id + "] -----";
    var foot := "----- END APPROVED GUIDANCE: [" + s.id + "] -----";
    var rest := SupportLines(s.supports, s.id) + [foot];
    assert [SkillHead(s), Trimmed(s.body)] + rest == [head] + ([Trimmed(s.body)] + rest);
    JoinNext(head, [Trimmed(s.body)] + rest);
    JoinNext(Trimmed(s.body), rest);
    SupportsJoined(s.supports, s.id, foot);
  }

  lemma TrimmedIs(before: string, text: string, after: string)
    requires forall i :: 0 <= i < |before| ==> before[i] == '\n'
    requires forall i :: 0 <= i < |after| ==> after[i] == '\n'
    requires text != "" ==> text[0] != '\n' && text[|text| - 1] != '\n'
    ensures Trimmed(before + text + after) == text
  {
    StripPadded(before, text, after, c => c == NEWLINE);
  }

  // -------------------------------------------------------------- accounting

  /** The bytes the skill cap is compared with: the joined skills. */
  function SkillBytes(c: Context): nat {
    |JoinTexts(SkillTexts(c.skills))|
  }

  /** The bytes the guidance cap is compared with: the artifacts, one after the other. */
  function GuidanceBytes(c: Context): nat {
    if c.scopes == [] then 0 else |Concat(ScopeArtifacts(c.scopes) + ClauseArtifacts(c))|
  }

  /** Texts with one separator each. */
  function Weight(texts: seq<string>): nat {
    if texts == [] then 0 else |texts[0]| + |GAP| + Weight(texts[1..])
  }

  lemma {:induction false} WeightAppend(a: seq<string>, b: seq<string>)
    ensures Weight(a + b) == Weight(a) + Weight(b)
  {
    if a == [] {
      assert a + b == b;
    } else {
      assert (a + b)[1..] == a[1..] + b;
      WeightAppend(a[1..], b);
    }
  }

  lemma {:induction false} JoinWeight(texts: seq<string>)
    requires texts != []
    ensures |JoinTexts(texts)| + |GAP| == Weight(texts)
  {
    if |texts| > 1 {
      JoinWeight(texts[1..]);
    }
  }

  lemma {:induction false} SystemTextsAppend(a: seq<Block>, b: seq<Block>)
    ensures SystemTexts(a + b) == SystemTexts(a) + SystemTexts(b)
  {
    if a == [] {
      assert a + b == b;
    } else {
      assert (a + b)[1..] == a[1..] + b;
      SystemTextsAppend(a[1..], b);
    }
  }

  /** Splitting the skills into two groups keeps their weight. */
  lemma {:induction false} GroupsWeigh(skills: seq<Skill>, core: seq<string>)
    ensures
      var p, q := (s: Skill) => (s.id in core) == true, (s: Skill) => (s.id in core) == false;
      Weight(SkillTexts(Filter(skills, p))) + Weight(SkillTexts(Filter(skills, q))) == Weight(SkillTexts(skills))
  {
    hide SkillText;
    if skills != [] {
      GroupsWeigh(skills[1..], core);
      var p, q := (s: Skill) => (s.id in core) == true, (s: Skill) => (s.id in core) == false;
      TextsCons(skills[0], Filter(skills[1..], p));
      TextsCons(skills[0], Filter(skills[1..], q));
      TextsCons(skills[0], skills[1..]);
      assert skills == [skills[0]] + skills[1..];
      assert Filter(skills, p) == if p(skills[0]) then [skills[0]] + Filter(skills[1..], p) else Filter(skills[1..], p);
      assert Filter(skills, q) == if q(skills[0]) then [skills[0]] + Filter(skills[1..], q) else Filter(skills[1..], q);
    }
  }

  lemma TextsCons(s: Skill, rest: seq<Skill>)
    ensures Weight(SkillTexts([s] + rest)) == |SkillText(s)| + |GAP| + Weight(SkillTexts(rest))
  {
    hide SkillText;
    assert ([s] + rest)[1..] == rest;
    assert ([SkillText(s)] + SkillTexts(rest))[1..] == SkillTexts(rest);
  }

  lemma SkillBlockWeighs(section: string, group: seq<Skill>)
    ensures Weight(SystemTexts(SkillBlock(section, group))) == Weight(SkillTexts(group))
  {
    hide SkillText;
    if group != [] {
      var text := JoinTexts(SkillTexts(group));
      JoinWeight(SkillTexts(group));
      OneText(Block(section, System, text));
    }
  }

  lemma OneText(b: Block)
    requires b.channel == System
    ensures SystemTexts([b]) == [b.text] && Weight([b.text]) == |b.text| + |GAP|
  {
    assert [b][1..] == [] && [b.text][1..] == [];
  }

  /** No separator between skills is left out of account: core and contextual pack
      together weigh what the cap measures, and one separator. */
  lemma SkillsWeigh(c: Context)
    ensures Weight(SystemTexts(SkillBlocks(c))) == if c.skills == [] then 0 else SkillBytes(c) + |GAP|
  {
    hide SkillBlock, SystemTexts, Weight, JoinTexts, SkillText, Filter, SkillTexts;
    SystemTextsAppend(SkillBlock("CORE_APPROVED_SKILLS", Group(c, true)),
                      SkillBlock("CONTEXTUAL_SKILLS", Group(c, false)));
    WeightAppend(SystemTexts(SkillBlock("CORE_APPROVED_SKILLS", Group(c, true))),
                 SystemTexts(SkillBlock("CONTEXTUAL_SKILLS", Group(c, false))));
    SkillBlockWeighs("CORE_APPROVED_SKILLS", Group(c, true));
    SkillBlockWeighs("CONTEXTUAL_SKILLS", Group(c, false));
    GroupsWeigh(c.skills, c.core);
    if c.skills != [] {
      JoinWeight(SkillTexts(c.skills));
    } else {
      NothingWeighs();
    }
  }

  lemma NothingWeighs()
    ensures Weight(SkillTexts([])) == 0
  {
  }

  lemma {:induction false} ScopeArtifactsAppend(a: seq<Scope>, b: seq<Scope>)
    ensures ScopeArtifacts(a + b) == ScopeArtifacts(a) + ScopeArtifacts(b)
  {
    if a == [] {
      assert a + b == b;
    } else {
      assert (a + b)[1..] == a[1..] + b;
      ScopeArtifactsAppend(a[1..], b);
    }
  }

  /** The guidance blocks weigh what the cap measures and one separator each. */
  lemma GuidanceWeighs(c: Context)
    ensures Weight(SystemTexts(GuidanceBlocks(c))) == GuidanceBytes(c) + |GAP| * |GuidanceBlocks(c)|
  {
    hide SystemTexts, Weight, ScopeArtifacts, GuidanceBytes;
    var root, sub, clause := RootBlock(c), SubprojectBlock(c), ClauseBlock(c);
    SystemTextsAppend(sub, clause);
    SystemTextsAppend(root, sub + clause);
    WeightAppend(SystemTexts(sub), SystemTexts(clause));
    WeightAppend(SystemTexts(root), SystemTexts(sub) + SystemTexts(clause));
    GuidancePartWeighs(root);
    GuidancePartWeighs(sub);
    GuidancePartWeighs(clause);
    GuidanceSplits(c);
  }

  function TextBytes(b: seq<Block>): nat {
    if b == [] then 0 else |b[0].text| + TextBytes(b[1..])
  }

  lemma GuidancePartWeighs(b: seq<Block>)
    requires |b| <= 1 && (b != [] ==> b[0].channel == System)
    ensures Weight(SystemTexts(b)) == TextBytes(b) + |GAP| * |b|
  {
    if b != [] {
      assert b == [b[0]];
      OneText(b[0]);
      assert TextBytes(b[1..]) == 0;
    }
  }

  lemma GuidanceSplits(c: Context)
    ensures GuidanceBytes(c) == TextBytes(RootBlock(c)) + TextBytes(SubprojectBlock(c)) + TextBytes(ClauseBlock(c))
  {
    if c.scopes != [] {
      var all, first, rest := ScopeArtifacts(c.scopes), ScopeArtifacts(c.scopes[..1]), ScopeArtifacts(c.scopes[1..]);
      assert c.scopes == c.scopes[..1] + c.scopes[1..];
      ScopeArtifactsAppend(c.scopes[..1], c.scopes[1..]);
      ConcatAppend(first, rest);
      ConcatAppend(all, ClauseArtifacts(c));
      assert TextBytes([]) == 0;
      assert |c.scopes| <= 1 ==> rest == [];
      assert c.clause == None ==> ClauseArtifacts(c) == [];
      assert RootBlock(c)[1..] == [];
      assert |c.scopes| > 1 ==> SubprojectBlock(c)[1..] == [];
      assert c.clause.Some? ==> ClauseBlock(c)[1..] == [];
    }
  }

  /** The separators no cap counts: before the preamble, before the skills, and before
      every guidance block. */
  function Uncounted(c: Context): nat {
    if ProjectedBlocks(c) == [] then 0 else 1 + (if c.skills == [] then 0 else 1) + |GuidanceBlocks(c)|
  }

  /** The exact length of the system prompt in terms of what the caps measure. */
  lemma PromptLength(c: Context)
    ensures |AppendSystemPrompt(c)|
         == |c.policy|
            + (if ProjectedBlocks(c) == [] then 0
               else |c.preamble| + SkillBytes(c) + GuidanceBytes(c) + |GAP| * Uncounted(c))
  {
    hide ProjectedBlocks, SkillBytes, GuidanceBytes, GuidanceBlocks, SkillBlocks, Weight, JoinTexts, SortBy;
    SortMovesNothing(c);
    SystemPart(c);
    var tail := SystemTexts(PreambleBlock(c) + ProjectedBlocks(c));
    JoinWeight([c.policy] + tail);
    WeightAppend([c.policy], tail);
    OneText(Block("", System, c.policy));
    TailWeighs(c);
  }

  lemma SystemPart(c: Context)
    ensures SystemTexts(Blocks(c)) == [c.policy] + SystemTexts(PreambleBlock(c) + ProjectedBlocks(c))
  {
    hide ProjectedBlocks, PreambleBlock;
    var policy := Block("DISPATCHER_SYSTEM_POLICY", System, c.policy);
    var envelope := Block("TASK_ENVELOPE", Prompt, c.envelope);
    SystemTextsAppend([policy, envelope], PreambleBlock(c) + ProjectedBlocks(c));
    assert [policy, envelope][1..] == [envelope] && [envelope][1..] == [];
    assert SystemTexts([envelope]) == [] && SystemTexts([policy, envelope]) == [c.policy];
  }

  lemma TailWeighs(c: Context)
    ensures Weight(SystemTexts(PreambleBlock(c) + ProjectedBlocks(c)))
         == if ProjectedBlocks(c) == [] then 0
            else |c.preamble| + SkillBytes(c) + GuidanceBytes(c) + |GAP| * Uncounted(c)
  {
    hide SkillBytes, GuidanceBytes, GuidanceBlocks, SkillBlocks, Weight, SystemTexts;
    SystemTextsAppend(PreambleBlock(c), ProjectedBlocks(c));
    SystemTextsAppend(SkillBlocks(c), GuidanceBlocks(c));
    WeightAppend(SystemTexts(PreambleBlock(c)), SystemTexts(ProjectedBlocks(c)));
    WeightAppend(SystemTexts(SkillBlocks(c)), SystemTexts(GuidanceBlocks(c)));
    SkillsWeigh(c);
    GuidanceWeighs(c);
    NoSkillsNoBytes(c);
    if ProjectedBlocks(c) == [] {
      NoTexts();
      assert PreambleBlock(c) + ProjectedBlocks(c) == [];
    } else {
      OneText(Block(PREAMBLE, System, c.preamble));
    }
  }

  lemma NoSkillsNoBytes(c: Context)
    ensures c.skills == [] ==> SkillBytes(c) == 0
  {
  }

  lemma NoTexts()
    ensures SystemTexts([]) == [] && Weight([]) == 0
  {
  }

  /** The lifecycle text adds itself and, beside a non-empty prompt, one separator. */
  lemma FinalLength(c: Context, lifecycle: string)
    ensures |SentPrompt(c, lifecycle)|
         == |AppendSystemPrompt(c)| + |lifecycle|
            + if AppendSystemPrompt(c) != "" && lifecycle != "" then |GAP| else 0
  {
    hide AppendSystemPrompt;
    var p := AppendSystemPrompt(c);
    ComposeLength([p, lifecycle, ""]);
    assert [p, lifecycle, ""][1..] == [lifecycle, ""] && [lifecycle, ""][1..] == [""] && [""][1..] == [];
    assert ComposedLength([""]) == 0 && ComposedLength([lifecycle, ""]) == |lifecycle|;
  }

  /** The task prompt, in which measured and sent contexts differ, is no part of it. */
  lemma TaskPromptIsApart(c: Context, text: string)
    ensures AppendSystemPrompt(c.(envelope := text)) == AppendSystemPrompt(c)
  {
    hide SystemTexts, SortBy;
    var d := c.(envelope := text);
    SortMovesNothing(c);
    SortMovesNothing(d);
    SystemPart(c);
    SystemPart(d);
    assert Group(d, true) == Group(c, true) && Group(d, false) == Group(c, false);
  }

  /** What was measured is what is sent: after a returned preflight, a run of any kind the
      resume cap allows sends a prompt of the size in the row of its phase, within the
      ceiling. A review sends its context alone, without a lifecycle text. */
  lemma MeasuredIsSent(
      en: Engine, i: Preflight.Inputs, report: Preflight.Report, kind: Preflight.RunKind, role: Preflight.Role,
      c: Context, preflightTask: string)
    requires Preflight.Guaranteed(en, i, report) && Preflight.Allowed(i, kind, role)
    requires Lifecycle.Accepted(en.manifest)
    requires
      var p := Preflight.RuntimePhase(kind, role);
      p in i.compositions ==>
        i.compositions[p] == Measured(c.(envelope := preflightTask), i.compositions[p].reviewAvailable)
    ensures
      var p := Preflight.RuntimePhase(kind, role);
      var found := Preflight.ForPhase(report.rows, p);
      && found.Some? && Projection(en, p, i.task).Ok?
      && var sent :=
           if p.FableReview? then AppendSystemPrompt(c) else SentPrompt(c, Projection(en, p, i.task).value.text);
         |sent| == found.value.composedBytes && |sent| <= i.ceiling
  {
    hide Projection, AppendSystemPrompt, Preflight.Guaranteed;
    TaskPromptIsApart(c, preflightTask);
    Preflight.AllowedRunsFit(en, i, report, kind, role);
    if Preflight.RuntimePhase(kind, role).FableReview? {
      ReviewProjectsNothing(en, i.task);
      FinalLength(c, "");
    }
  }

  // ------------------------------------------------------------ skill length

  function Lengths(parts: seq<string>): nat {
    if parts == [] then 0 else |parts[0]| + Lengths(parts[1..])
  }

  lemma {:induction false} JoinLength(parts: seq<string>)
    requires parts != []
    ensures |Join(NEWLINE, parts)| == Lengths(parts) + |parts| - 1
  {
    if |parts| > 1 {
      JoinLength(parts[1..]);
    } else {
      assert Lengths(parts[1..]) == 0;
    }
  }

  lemma {:induction false} LengthsAppend(a: seq<string>, b: seq<string>)
    ensures Lengths(a + b) == Lengths(a) + Lengths(b)
  {
    if a == [] {
      assert a + b == b;
    } else {
      assert (a + b)[1..] == a[1..] + b;
      LengthsAppend(a[1..], b);
    }
  }

  /** A skill with one-letter names and this body. */
  function Plain(body: string): Skill {
    Skill("i", "d", body, [])
  }

  /** The length of the shortest skill there can be. */
  function LeastSkill(): nat {
    |SkillText(Plain(""))|
  }

  lemma SkillLength(s: Skill)
    ensures |SkillText(s)|
         == |SkillHead(s)| + |Trimmed(s.body)| + |SkillFoot(s)| + 2
            + Lengths(SupportLines(s.supports, s.id)) + |SupportLines(s.supports, s.id)|
  {
    hide SkillHead, SkillFoot, Trimmed, SupportLines;
    var head, lines, foot := [SkillHead(s), Trimmed(s.body)], SupportLines(s.supports, s.id), [SkillFoot(s)];
    JoinLength(head + (lines + foot));
    LengthsAppend(head, lines + foot);
    LengthsAppend(lines, foot);
    assert head[1..] == [Trimmed(s.body)] && head[1..][1..] == [] && foot[1..] == [];
    assert Lengths(head[1..]) == |Trimmed(s.body)|;
  }

  lemma LeastIsLeast(s: Skill)
    ensures |SkillText(s)| >= LeastSkill()
  {
    hide SkillText, Lengths;
    SkillLength(s);
    SkillLength(Plain(""));
    NoSupports();
    assert |Trimmed("")| == 0;
  }

  lemma NoSupports()
    ensures Lengths([]) == 0
  {
  }

  /** A skill of any length from the least one up. */
  lemma SkillOfLength(n: nat)
    requires n >= LeastSkill()
    ensures |SkillText(Plain(Filler(n - LeastSkill())))| == n
  {
    hide SkillText, Lengths;
    var body := Filler(n - LeastSkill());
    SkillLength(Plain(body));
    SkillLength(Plain(""));
    StripFixed(body, c => c == NEWLINE);
    assert |Trimmed("")| == 0;
  }

  function Filler(n: nat): (s: string)
    ensures |s| == n && forall i :: 0 <= i < n ==> s[i] == 'x'
  {
    if n == 0 then "" else Filler(n - 1) + "x"
  }

  /** A projection of skills is never shorter than the least skill. */
  lemma SomeSkills(c: Context)
    requires c.skills != []
    ensures SkillBytes(c) >= LeastSkill()
  {
    hide SkillText;
    LeastIsLeast(c.skills[0]);
    assert SkillTexts(c.skills)[0] == SkillText(c.skills[0]);
  }

  // ----------------------------------------------------------- caps and bound

  /** Within its caps: policy and preamble within what is set aside for them, the
      skills, the guidance and the lifecycle text. */
  predicate Within(c: Context, lifecycle: string, config: Config, authored: nat, lifecycleBytes: nat) {
    && |c.policy| + |c.preamble| <= authored
    && SkillBytes(c) <= config.skillsBytes
    && GuidanceBytes(c) <= config.guidanceBytes
    && |lifecycle| <= lifecycleBytes
  }

  /** The longest prompt the caps admit: a skill projection needs room for a skill;
      four separators around guidance of three blocks, one before the skills, one before
      the lifecycle text. */
  function Longest(config: Config, authored: nat, lifecycleBytes: nat): nat {
    authored + (if config.skillsBytes >= LeastSkill() then config.skillsBytes + |GAP| else 0)
    + config.guidanceBytes + 4 * |GAP| + (if lifecycleBytes > 0 then lifecycleBytes + |GAP| else 0)
  }

  /** No prompt within the caps is longer. */
  lemma LongestBounds(c: Context, lifecycle: string, config: Config, authored: nat, lifecycleBytes: nat)
    requires Within(c, lifecycle, config, authored, lifecycleBytes)
    ensures |SentPrompt(c, lifecycle)| <= Longest(config, authored, lifecycleBytes)
  {
    hide SentPrompt, AppendSystemPrompt, LeastSkill, SkillBytes, GuidanceBytes, SkillBlocks;
    PromptLength(c);
    FinalLength(c, lifecycle);
    if c.skills != [] {
      SomeSkills(c);
    } else {
      NoSkillsNoBytes(c);
    }
  }

  /** The context that uses every cap up: one skill, a root and a subproject scope, the
      graph clause; every guidance artifact ends with a newline. */
  function Fullest(config: Config, authored: nat, preamble: string): Context
    requires |preamble| <= authored && config.guidanceBytes >= 5
  {
    Context(
      Filler(authored - |preamble|), preamble, "",
      if config.skillsBytes >= LeastSkill() then [Plain(Filler(config.skillsBytes - LeastSkill()))] else [], [],
      [Scope(Filler(config.guidanceBytes - 5) + "\n", "\n"), Scope("\n", "\n")], Some("\n"))
  }

  /** Guidance as reviewed: every artifact ends with a newline. */
  predicate Reviewed(c: Context) {
    forall i :: 0 <= i < |ScopeArtifacts(c.scopes) + ClauseArtifacts(c)| ==>
      EndsWithNewline((ScopeArtifacts(c.scopes) + ClauseArtifacts(c))[i])
  }

  lemma FullestGuidance(config: Config, authored: nat, preamble: string)
    requires |preamble| <= authored && config.guidanceBytes >= 5
    ensures
      var c := Fullest(config, authored, preamble);
      Reviewed(c) && GuidanceBytes(c) == config.guidanceBytes && |GuidanceBlocks(c)| == 3
  {
    hide SkillText;
    var c := Fullest(config, authored, preamble);
    var a := Filler(config.guidanceBytes - 5) + "\n";
    assert c.scopes[1..] == [Scope("\n", "\n")] && c.scopes[1..][1..] == [];
    var artifacts := [a, "\n", "\n", "\n"];
    assert ScopeArtifacts(c.scopes[1..]) == ["\n", "\n"] + [];
    assert ScopeArtifacts(c.scopes) == [a, "\n"] + ["\n", "\n"] == artifacts;
    assert ClauseArtifacts(c) == ["\n"];
    FiveArtifacts(a);
    assert artifacts + ["\n"] == [a, "\n", "\n", "\n", "\n"];
  }

  lemma FiveArtifacts(a: string)
    ensures |Concat([a, "\n", "\n", "\n", "\n"])| == |a| + 4
  {
    var four := ["\n", "\n", "\n", "\n"];
    assert [a, "\n", "\n", "\n", "\n"][1..] == four;
    assert four[1..] == ["\n", "\n", "\n"] && four[1..][1..] == ["\n", "\n"];
    assert ["\n", "\n"][1..] == ["\n"] && ["\n"][1..] == [];
    assert |Concat(["\n"])| == 1;
    assert |Concat(["\n", "\n"])| == 2;
    assert |Concat(["\n", "\n", "\n"])| == 3;
    assert |Concat(four)| == 4;
  }

  lemma FullestSkills(config: Config, authored: nat, preamble: string)
    requires |preamble| <= authored && config.guidanceBytes >= 5
    ensures
      var c := Fullest(config, authored, preamble);
      SkillBytes(c) == if config.skillsBytes >= LeastSkill() then config.skillsBytes else 0
  {
    hide SkillText, LeastSkill;
    var c := Fullest(config, authored, preamble);
    if config.skillsBytes >= LeastSkill() {
      SkillOfLength(config.skillsBytes);
      assert c.skills[1..] == [] && SkillTexts(c.skills) == [SkillText(c.skills[0])];
    }
  }

  /** And one of them is as long: the bound is reached. */
  lemma LongestReached(config: Config, authored: nat, lifecycleBytes: nat, preamble: string)
    requires |preamble| <= authored && config.guidanceBytes >= 5
    ensures
      var c, lifecycle := Fullest(config, authored, preamble), Filler(lifecycleBytes);
      && Reviewed(c) && Within(c, lifecycle, config, authored, lifecycleBytes)
      && |SentPrompt(c, lifecycle)| == Longest(config, authored, lifecycleBytes)
  {
    hide SentPrompt, AppendSystemPrompt, LeastSkill, SkillBytes, GuidanceBytes, SkillBlocks, GuidanceBlocks, Reviewed;
    var c := Fullest(config, authored, preamble);
    FullestGuidance(config, authored, preamble);
    FullestSkills(config, authored, preamble);
    PromptLength(c);
    FinalLength(c, Filler(lifecycleBytes));
  }

  /** Every prompt from reviewed parts within the caps fits one argument. */
  ghost predicate PromptsFit(config: Config, authored: nat, lifecycleBytes: nat, preamble: string) {
    forall c: Context, lifecycle: string ::
      c.preamble == preamble && Reviewed(c) && Within(c, lifecycle, config, authored, lifecycleBytes)
      ==> |SentPrompt(c, lifecycle)| <= MAX_APPEND_SYSTEM_PROMPT_BYTES
  }

  lemma PromptsFitIff(config: Config, authored: nat, lifecycleBytes: nat, preamble: string)
    requires |preamble| <= authored && config.guidanceBytes >= 5
    ensures PromptsFit(config, authored, lifecycleBytes, preamble)
       <==> Longest(config, authored, lifecycleBytes) <= MAX_APPEND_SYSTEM_PROMPT_BYTES
  {
    hide SentPrompt, Longest, Reviewed, Within;
    LongestReached(config, authored, lifecycleBytes, preamble);
    FullestPreamble(config, authored, preamble);
    forall c: Context, lifecycle: string | Within(c, lifecycle, config, authored, lifecycleBytes)
      ensures |SentPrompt(c, lifecycle)| <= Longest(config, authored, lifecycleBytes)
    {
      LongestBounds(c, lifecycle, config, authored, lifecycleBytes);
    }
  }

  lemma FullestPreamble(config: Config, authored: nat, preamble: string)
    requires |preamble| <= authored && config.guidanceBytes >= 5
    ensures Fullest(config, authored, preamble).preamble == preamble
  {
  }

  /** An accepted configuration carries every prompt whose policy, preamble and
      lifecycle text, with six separators, stay within the reserve. */
  lemma AcceptedPromptsFit(c: Context, lifecycle: string, config: Config, authored: nat, lifecycleBytes: nat)
    requires Validate(config) == None && Within(c, lifecycle, config, authored, lifecycleBytes)
    requires authored + lifecycleBytes + 6 * |GAP| <= DISPATCHER_AUTHORED_RESERVE_BYTES
    ensures |SentPrompt(c, lifecycle)| <= MAX_APPEND_SYSTEM_PROMPT_BYTES
  {
    hide SentPrompt, Within, LeastSkill;
    LongestBounds(c, lifecycle, config, authored, lifecycleBytes);
  }

  /** With the whole reserve used for policy and preamble, an accepted configuration
      carries every prompt exactly when its caps leave room for the separators and the
      lifecycle text, none of which the load-time sum counts. */
  lemma WholeReserveIff(config: Config, lifecycleBytes: nat, preamble: string)
    requires Validate(config) == None && |preamble| <= DISPATCHER_AUTHORED_RESERVE_BYTES
    requires config.guidanceBytes >= 5 && config.skillsBytes >= LeastSkill()
    ensures
      var uncounted := 5 * |GAP| + if lifecycleBytes > 0 then lifecycleBytes + |GAP| else 0;
      PromptsFit(config, DISPATCHER_AUTHORED_RESERVE_BYTES, lifecycleBytes, preamble)
      <==> config.skillsBytes + config.guidanceBytes + uncounted <= MAX_PROJECTED_CONTEXT_BYTES
  {
    hide PromptsFit, LeastSkill;
    PromptsFitIff(config, DISPATCHER_AUTHORED_RESERVE_BYTES, lifecycleBytes, preamble);
  }
}
