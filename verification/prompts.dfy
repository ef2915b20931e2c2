/** The text sent to the LLM: a fixed system prompt, the first request for a
    feature, and the follow-up that supplies requested files. A Java `Map`
    is passed as its entries in iteration order; nothing here depends on
    which order that is. */
module Prompts {
  import opened Base
  import opened Seqs
  import opened JavaString
  import opened Dto

  /** A map's entries, key then value, in iteration order. */
  type Entries = seq<(string, string)>

  const FeatureHeading := "# 기능 정보\n"
  const MemoryHeading := "# 기능 메모리 (과거 지식)\n"
  const KeyPointsHeading := "- 핵심 포인트:\n"
  const ChangedHeading := "# 변경된 파일\n"
  const CoreHeading := "# 핵심 파일 (전체 코드)\n"
  const InitialClosing := "위 코드를 리뷰해주세요. 추가로 필요한 파일이 있다면 요청해주세요."
  const FollowUpHeading := "# 요청하신 추가 파일\n"
  const FollowUpClosing := "이제 최종 리뷰를 진행해주세요."

  const RoleLine := "당신은 전문 코드 리뷰어입니다.\n"
  const ClosingFence := "```\n"

  /** The reviewer instructions: role, review principles, and the JSON shape
      in which to ask for more files. The text block's indentation is
      stripped and every line, the last included, ends in a newline. */
  const SystemPrompt: string :=
    RoleLine
    + "\n"
    + "## 역할\n"
    + "- 변경된 코드를 분석하여 문제점과 개선사항을 제시합니다.\n"
    + "- 버그, 성능 이슈, 보안 취약점, 코드 품질을 검토합니다.\n"
    + "\n"
    + "## 리뷰 원칙\n"
    + "1. 구체적이고 실행 가능한 피드백 제공\n"
    + "2. 긍정적인 부분도 언급\n"
    + "3. 우선순위 명시 (Critical, Major, Minor)\n"
    + "\n"
    + "## 추가 파일 요청\n"
    + "리뷰를 위해 추가 파일이 필요하다면 다음 형식으로 응답하세요:\n"
    + "```json\n"
    + "{\n"
    + "  \"needMoreContext\": true,\n"
    + "  \"requestedFiles\": [\"FileName.java\"],\n"
    + "  \"reason\": \"이유 설명\"\n"
    + "}\n"
    + "```\n"
    + "\n"
    + "추가 파일이 필요 없다면:\n"
    + "```json\n"
    + "{\n"
    + "  \"needMoreContext\": false\n"
    + "}\n"
    + ClosingFence

  /** `buildSystemPrompt`: takes nothing, so every call yields the same text,
      which opens with the reviewer's role and closes the last JSON example. */
  function BuildSystemPrompt(): (r: string)
    ensures StartsWith(r, RoleLine)
    ensures EndsWith(r, ClosingFence)
  {
    SystemPrompt
  }

  /** The feature's name and description. */
  function FeatureSection(d: FeatureDefinition): string {
    FeatureHeading + "- 기능: " + d.name + "\n" + "- 설명: " + d.description + "\n\n"
  }

  function KeyPointLine(p: string): string {
    "  * " + p + "\n"
  }

  /** The bullet list of key points, omitted entirely when there are none. */
  function KeyPointsSection(points: seq<string>): string {
    if points == [] then "" else KeyPointsHeading + Flatten(points, KeyPointLine)
  }

  /** The summary line of a memory section. */
  function SummaryLine(m: FeatureMemory): string {
    "- 요약: " + m.summary + "\n"
  }

  /** A memory section without its heading. */
  function MemoryBody(m: FeatureMemory): string {
    SummaryLine(m) + KeyPointsSection(m.keyPoints) + "\n"
  }

  /** What comes before the key points in a memory section. */
  function MemoryLead(m: FeatureMemory): string {
    MemoryHeading + SummaryLine(m)
  }

  /** Past knowledge about the feature, omitted when there is none. */
  function MemorySection(memory: Option<FeatureMemory>): string {
    match memory
    case None => ""
    case Some(m) => MemoryHeading + MemoryBody(m)
  }

  /** One file under its own heading, fenced as `fence` says. */
  function FileBlock(fence: string, entry: (string, string)): string {
    "## " + entry.0 + "\n" + fence + entry.1 + "\n```\n\n"
  }

  function DiffBlock(entry: (string, string)): string {
    FileBlock("```diff\n", entry)
  }

  function CodeBlock(entry: (string, string)): string {
    FileBlock("```java\n", entry)
  }

  /** The diffs, under a heading that is always present. */
  function ChangedSection(changed: Entries): string {
    ChangedHeading + Flatten(changed, DiffBlock)
  }

  /** The core files' full text, omitted when there are none. */
  function CoreSection(core: Entries): string {
    if core == [] then "" else CoreHeading + Flatten(core, CodeBlock)
  }

  /** `buildInitialPrompt`: the sections in their fixed order, then the
      closing request. */
  function BuildInitialPrompt(resolved: ResolvedFeature, changed: Entries, core: Entries): (r: string)
    ensures StartsWith(r, FeatureSection(resolved.definition))
    ensures EndsWith(r, InitialClosing)
  {
    var r := FeatureSection(resolved.definition) + MemorySection(resolved.memory)
             + ChangedSection(changed) + CoreSection(core) + InitialClosing;
    assert r[..|FeatureSection(resolved.definition)|] == FeatureSection(resolved.definition);
    r
  }

  /** `buildFollowUpPrompt`: the requested files, then the closing request. */
  function BuildFollowUpPrompt(requested: Entries): (r: string)
    ensures StartsWith(r, FollowUpHeading)
    ensures EndsWith(r, FollowUpClosing)
  {
    var r := FollowUpHeading + Flatten(requested, CodeBlock) + FollowUpClosing;
    assert r[..|FollowUpHeading|] == FollowUpHeading;
    r
  }

  /** Where the memory section of an initial prompt begins. */
  function MemoryOffset(resolved: ResolvedFeature): nat {
    |FeatureSection(resolved.definition)|
  }

  /** Where the core section (or, lacking one, the closing) begins. */
  function CoreOffset(resolved: ResolvedFeature, changed: Entries): nat {
    |FeatureSection(resolved.definition)| + |MemorySection(resolved.memory)| + |ChangedSection(changed)|
  }

  lemma RegroupKeyPoints(h: string, s: string, k: string, fl: string, n: string)
    ensures h + (s + (k + fl) + n) == (h + s + k) + fl + n
  {
  }

  lemma RegroupThird(f: string, m: string, h: string, fl: string, k: string, cl: string)
    ensures f + m + (h + fl) + k + cl == (f + m + h) + fl + (k + cl)
  {
  }

  lemma RegroupFourth(f: string, m: string, c: string, h: string, fl: string, cl: string)
    ensures f + m + c + (h + fl) + cl == (f + m + c + h) + fl + cl
  {
  }

  /** Locating `y` inside the second of five concatenated parts. */
  lemma LocateInSecond(a: string, b: string, c: string, d: string, e: string,
                       x: string, y: string, z: string)
    requires b == x + y + z
    ensures StartsAt(a + b + c + d + e, |a| + |x|, y)
  {
    assert a + b + c + d + e == (a + x) + y + (z + c + d + e);
    StartsAtMiddle(a + x, y, z + c + d + e);
  }

  /** Locating `y` inside the third of five concatenated parts. */
  lemma LocateInThird(a: string, b: string, c: string, d: string, e: string,
                      x: string, y: string, z: string)
    requires c == x + y + z
    ensures StartsAt(a + b + c + d + e, |a| + |b| + |x|, y)
  {
    assert a + b + c + d + e == (a + b + x) + y + (z + d + e);
    StartsAtMiddle(a + b + x, y, z + d + e);
  }

  /** Locating `y` inside the fourth of five concatenated parts. */
  lemma LocateInFourth(a: string, b: string, c: string, d: string, e: string,
                       x: string, y: string, z: string)
    requires d == x + y + z
    ensures StartsAt(a + b + c + d + e, |a| + |b| + |c| + |x|, y)
  {
    assert a + b + c + d + e == (a + b + c + x) + y + (z + e);
    StartsAtMiddle(a + b + c + x, y, z + e);
  }

  lemma MemoryHeadingWhenPresent(resolved: ResolvedFeature, changed: Entries, core: Entries)
    requires resolved.memory.Some?
    ensures StartsAt(BuildInitialPrompt(resolved, changed, core), MemoryOffset(resolved), MemoryHeading)
  {
    var f := FeatureSection(resolved.definition);
    var m := MemorySection(resolved.memory);
    var c := ChangedSection(changed);
    var k := CoreSection(core);
    assert BuildInitialPrompt(resolved, changed, core) == f + m + c + k + InitialClosing;
    var rest := MemoryBody(resolved.memory.value);
    assert m == "" + MemoryHeading + rest;
    LocateInSecond(f, m, c, k, InitialClosing, "", MemoryHeading, rest);
  }

  lemma ChangedHeadingWhenAbsent(resolved: ResolvedFeature, changed: Entries, core: Entries)
    requires resolved.memory.None?
    ensures StartsAt(BuildInitialPrompt(resolved, changed, core), MemoryOffset(resolved), ChangedHeading)
    ensures !StartsAt(BuildInitialPrompt(resolved, changed, core), MemoryOffset(resolved), MemoryHeading)
  {
    var f := FeatureSection(resolved.definition);
    var m := MemorySection(resolved.memory);
    var c := ChangedSection(changed);
    var k := CoreSection(core);
    var r := BuildInitialPrompt(resolved, changed, core);
    assert r == f + m + c + k + InitialClosing;
    var rest := Flatten(changed, DiffBlock);
    assert c == "" + ChangedHeading + rest;
    assert |m| == 0;
    LocateInThird(f, m, c, k, InitialClosing, "", ChangedHeading, rest);
    assert r[|f| + 2] == ChangedHeading[2];
    assert ChangedHeading[2] != MemoryHeading[2];
  }

  /** The memory section sits right after the feature section. */
  lemma MemorySectionAt(resolved: ResolvedFeature, changed: Entries, core: Entries)
    ensures StartsAt(BuildInitialPrompt(resolved, changed, core), MemoryOffset(resolved),
                     MemorySection(resolved.memory))
  {
    var f := FeatureSection(resolved.definition);
    var m := MemorySection(resolved.memory);
    var c := ChangedSection(changed);
    var k := CoreSection(core);
    assert BuildInitialPrompt(resolved, changed, core) == f + m + c + k + InitialClosing;
    RegroupSecond(f, m, c, k, InitialClosing);
    StartsAtMiddle(f, m, c + k + InitialClosing);
  }

  /** With memory, its summary line follows the memory heading. */
  lemma SummaryLineShown(resolved: ResolvedFeature, changed: Entries, core: Entries)
    requires resolved.memory.Some?
    ensures StartsAt(BuildInitialPrompt(resolved, changed, core), MemoryOffset(resolved) + |MemoryHeading|,
                     SummaryLine(resolved.memory.value))
  {
    var f := FeatureSection(resolved.definition);
    var m := MemorySection(resolved.memory);
    var c := ChangedSection(changed);
    var k := CoreSection(core);
    assert BuildInitialPrompt(resolved, changed, core) == f + m + c + k + InitialClosing;
    var mem := resolved.memory.value;
    var rest := KeyPointsSection(mem.keyPoints) + "\n";
    assert m == MemoryHeading + (SummaryLine(mem) + KeyPointsSection(mem.keyPoints) + "\n");
    RegroupHead(MemoryHeading, SummaryLine(mem), KeyPointsSection(mem.keyPoints), "\n");
    LocateInSecond(f, m, c, k, InitialClosing, MemoryHeading, SummaryLine(mem), rest);
  }

  lemma RegroupSecond(a: string, b: string, c: string, d: string, e: string)
    ensures a + b + c + d + e == a + b + (c + d + e)
  {
  }

  lemma RegroupHead(h: string, a: string, b: string, c: string)
    ensures h + (a + b + c) == h + a + (b + c)
  {
  }

  /** Key point `i` of the feature's memory appears in the prompt as its own
      `  * ` line, inside the memory section. */
  lemma KeyPointInPrompt(resolved: ResolvedFeature, changed: Entries, core: Entries, i: nat)
    requires resolved.memory.Some? && i < |resolved.memory.value.keyPoints|
    ensures var m := resolved.memory.value;
            StartsAt(BuildInitialPrompt(resolved, changed, core),
                     MemoryOffset(resolved) + |MemoryLead(m)| + |KeyPointsHeading|
                       + |Flatten(m.keyPoints[..i], KeyPointLine)|,
                     KeyPointLine(m.keyPoints[i]))
  {
    var m := resolved.memory.value;
    var r := BuildInitialPrompt(resolved, changed, core);
    var j := |MemoryLead(m)| + |KeyPointsHeading| + |Flatten(m.keyPoints[..i], KeyPointLine)|;
    MemorySectionAt(resolved, changed, core);
    KeyPointListed(m, i);
    StartsAtWithin(r, MemoryOffset(resolved), MemorySection(Some(m)), j, KeyPointLine(m.keyPoints[i]));
  }

  /** The changed-files heading is always emitted, right after the memory
      section (or the feature section when there is no memory). */
  lemma ChangedHeadingShown(resolved: ResolvedFeature, changed: Entries, core: Entries)
    ensures StartsAt(BuildInitialPrompt(resolved, changed, core),
                     MemoryOffset(resolved) + |MemorySection(resolved.memory)|, ChangedHeading)
  {
    var f := FeatureSection(resolved.definition);
    var m := MemorySection(resolved.memory);
    var c := ChangedSection(changed);
    var k := CoreSection(core);
    assert BuildInitialPrompt(resolved, changed, core) == f + m + c + k + InitialClosing;
    var rest := Flatten(changed, DiffBlock);
    assert c == "" + ChangedHeading + rest;
    LocateInThird(f, m, c, k, InitialClosing, "", ChangedHeading, rest);
  }

  /** The memory heading follows the feature section exactly when the
      feature has memory; otherwise the changed-files heading does. */
  lemma MemoryShownIffPresent(resolved: ResolvedFeature, changed: Entries, core: Entries)
    ensures var r := BuildInitialPrompt(resolved, changed, core);
            StartsAt(r, MemoryOffset(resolved), MemoryHeading) <==> resolved.memory.Some?
    ensures var r := BuildInitialPrompt(resolved, changed, core);
            resolved.memory.None? ==> StartsAt(r, MemoryOffset(resolved), ChangedHeading)
  {
    if resolved.memory.Some? {
      MemoryHeadingWhenPresent(resolved, changed, core);
    } else {
      ChangedHeadingWhenAbsent(resolved, changed, core);
    }
  }

  /** Inside a memory section the key-point heading follows the summary line
      exactly when there are key points; otherwise the section ends there. */
  lemma KeyPointsShownIffAny(m: FeatureMemory)
    ensures StartsAt(MemorySection(Some(m)), |MemoryLead(m)|, KeyPointsHeading)
            <==> m.keyPoints != []
  {
    var lead := MemoryLead(m);
    var s := MemorySection(Some(m));
    if m.keyPoints != [] {
      var rest := Flatten(m.keyPoints, KeyPointLine) + "\n";
      assert s == lead + KeyPointsHeading + rest;
      StartsAtMiddle(lead, KeyPointsHeading, rest);
    } else {
      assert s == lead + "\n";
    }
  }

  /** Key point `i` is rendered as its own `  * ` line, after the lines of
      the points before it. */
  lemma KeyPointListed(m: FeatureMemory, i: nat)
    requires i < |m.keyPoints|
    ensures StartsAt(MemorySection(Some(m)),
                     |MemoryLead(m)| + |KeyPointsHeading| + |Flatten(m.keyPoints[..i], KeyPointLine)|,
                     KeyPointLine(m.keyPoints[i]))
  {
    var points := m.keyPoints;
    var fl := Flatten(points, KeyPointLine);
    var lead := MemoryLead(m);
    assert MemorySection(Some(m)) == MemoryHeading + (SummaryLine(m) + (KeyPointsHeading + fl) + "\n");
    RegroupKeyPoints(MemoryHeading, SummaryLine(m), KeyPointsHeading, fl, "\n");
    LocateRendered(lead + KeyPointsHeading, points, i, KeyPointLine, "\n");
  }

  /** Changed-file entry `i` appears as a diff block right after the blocks
      of the entries before it. */
  lemma ChangedFileShown(resolved: ResolvedFeature, changed: Entries, core: Entries, i: nat)
    requires i < |changed|
    ensures StartsAt(BuildInitialPrompt(resolved, changed, core),
                     MemoryOffset(resolved) + |MemorySection(resolved.memory)|, ChangedHeading)
    ensures StartsAt(BuildInitialPrompt(resolved, changed, core),
                     MemoryOffset(resolved) + |MemorySection(resolved.memory)| + |ChangedHeading|
                       + |Flatten(changed[..i], DiffBlock)|,
                     DiffBlock(changed[i]))
  {
    var f := FeatureSection(resolved.definition);
    var m := MemorySection(resolved.memory);
    var fl := Flatten(changed, DiffBlock);
    var k := CoreSection(core);
    RegroupThird(f, m, ChangedHeading, fl, k, InitialClosing);
    LocateRendered(f + m + ChangedHeading, changed, i, DiffBlock, k + InitialClosing);
    ChangedHeadingShown(resolved, changed, core);
  }

  lemma CoreHeadingWhenAny(resolved: ResolvedFeature, changed: Entries, core: Entries)
    requires core != []
    ensures StartsAt(BuildInitialPrompt(resolved, changed, core), CoreOffset(resolved, changed), CoreHeading)
  {
    var f := FeatureSection(resolved.definition);
    var m := MemorySection(resolved.memory);
    var c := ChangedSection(changed);
    var k := CoreSection(core);
    assert BuildInitialPrompt(resolved, changed, core) == f + m + c + k + InitialClosing;
    var rest := Flatten(core, CodeBlock);
    assert k == "" + CoreHeading + rest;
    LocateInFourth(f, m, c, k, InitialClosing, "", CoreHeading, rest);
  }

  lemma ClosingWhenNoCore(resolved: ResolvedFeature, changed: Entries, core: Entries)
    requires core == []
    ensures StartsAt(BuildInitialPrompt(resolved, changed, core), CoreOffset(resolved, changed), InitialClosing)
    ensures !StartsAt(BuildInitialPrompt(resolved, changed, core), CoreOffset(resolved, changed), CoreHeading)
  {
    var head := FeatureSection(resolved.definition) + MemorySection(resolved.memory)
                + ChangedSection(changed);
    var r := BuildInitialPrompt(resolved, changed, core);
    assert r == head + InitialClosing + "";
    StartsAtMiddle(head, InitialClosing, "");
    assert r[|head|] == InitialClosing[0];
    assert InitialClosing[0] != CoreHeading[0];
  }

  /** The core heading follows the changed files exactly when there are core
      files; otherwise the closing request does. */
  lemma CoreShownIffAny(resolved: ResolvedFeature, changed: Entries, core: Entries)
    ensures var r := BuildInitialPrompt(resolved, changed, core);
            StartsAt(r, CoreOffset(resolved, changed), CoreHeading) <==> core != []
    ensures var r := BuildInitialPrompt(resolved, changed, core);
            core == [] ==> StartsAt(r, CoreOffset(resolved, changed), InitialClosing)
  {
    if core != [] {
      CoreHeadingWhenAny(resolved, changed, core);
    } else {
      ClosingWhenNoCore(resolved, changed, core);
    }
  }

  /** Core entry `i` appears as a code block right after the blocks of the
      entries before it. */
  lemma CoreFileShown(resolved: ResolvedFeature, changed: Entries, core: Entries, i: nat)
    requires i < |core|
    ensures StartsAt(BuildInitialPrompt(resolved, changed, core),
                     CoreOffset(resolved, changed) + |CoreHeading| + |Flatten(core[..i], CodeBlock)|,
                     CodeBlock(core[i]))
  {
    var f := FeatureSection(resolved.definition);
    var m := MemorySection(resolved.memory);
    var c := ChangedSection(changed);
    var fl := Flatten(core, CodeBlock);
    assert CoreSection(core) == CoreHeading + fl;
    RegroupFourth(f, m, c, CoreHeading, fl, InitialClosing);
    LocateRendered(f + m + c + CoreHeading, core, i, CodeBlock, InitialClosing);
  }

  /** Requested entry `i` appears as a code block right after the blocks of
      the entries before it. */
  lemma RequestedFileShown(requested: Entries, i: nat)
    requires i < |requested|
    ensures StartsAt(BuildFollowUpPrompt(requested),
                     |FollowUpHeading| + |Flatten(requested[..i], CodeBlock)|,
                     CodeBlock(requested[i]))
  {
    LocateRendered(FollowUpHeading, requested, i, CodeBlock, FollowUpClosing);
  }
}
