/** The pull-request body parser. Each of its four `java.util.regex` patterns
    (all compiled with DOTALL) is written out as marker search, separator
    scan and lazy capture up to a lookahead, followed by the same
    split/trim/filter pipeline the streams apply. */
module Parser {
  import opened Base
  import opened Seqs
  import opened JavaString
  import opened Dto

  /** `\s`: space, tab, newline, vertical tab, form feed, carriage return. */
  predicate IsRegexSpace(c: char) {
    c == ' ' || c == '\t' || c == '\n' || c == '\r' || c as int == 0x0B || c as int == 0x0C
  }

  /** The characters `$` treats as ending a line. */
  predicate IsLineTerminator(c: char) {
    c == '\n' || c == '\r' || c as int == 0x85 || c as int == 0x2028 || c as int == 0x2029
  }

  /** `$` outside MULTILINE mode: at the end of the input, or before a line
      terminator (a lone one, or `\r\n`) that ends it, never between `\r` and
      `\n`. */
  predicate AtEnd(s: string, i: nat) {
    || i == |s|
    || (i + 2 == |s| && s[i] == '\r' && s[i + 1] == '\n')
    || (i + 1 == |s| && IsLineTerminator(s[i]) && !(s[i] == '\n' && i > 0 && s[i - 1] == '\r'))
  }

  /** The number of `\s` characters from index `i` on: how far a greedy `\s*`
      first reaches. */
  function SpaceRun(s: string, i: nat): (n: nat)
    requires i <= |s|
    ensures i + n <= |s|
    ensures forall k :: i <= k < i + n ==> IsRegexSpace(s[k])
    ensures i + n < |s| ==> !IsRegexSpace(s[i + n])
    decreases |s| - i
  {
    if i < |s| && IsRegexSpace(s[i]) then 1 + SpaceRun(s, i + 1) else 0
  }

  /** What follows the marker before the captured group: `\s*\n` (a section
      heading line) or `\s*-\s*` (a `main -`/`related -` line). */
  datatype Lead = LineBreak | Dash

  /** The lookahead that ends the lazy `(.+?)`: `(?=\n|related|$)` or
      `(?=\n##|$)`. */
  datatype Stop = LineOrRelated | NextHeading

  datatype Pattern = Pattern(marker: string, lead: Lead, stop: Stop)

  /** `## summary\s*\n(.+?)(?=\n##|$)` */
  const SummaryPattern := Pattern("## summary", LineBreak, NextHeading)
  /** `main\s*-\s*(.+?)(?=\n|related|$)` */
  const MainPattern := Pattern("main", Dash, LineOrRelated)
  /** `related\s*-\s*(.+?)(?=\n##|$)` */
  const RelatedPattern := Pattern("related", Dash, NextHeading)
  /** `## description\s*\n(.+?)(?=\n##|$)` */
  const DescriptionPattern := Pattern("## description", LineBreak, NextHeading)

  predicate StopsAt(s: string, i: nat, stop: Stop) {
    match stop
    case LineOrRelated => StartsAt(s, i, "\n") || StartsAt(s, i, "related") || AtEnd(s, i)
    case NextHeading => StartsAt(s, i, "\n##") || AtEnd(s, i)
  }

  /** The first index from `i` on where the lookahead succeeds: where a lazy
      group that may end no earlier than `i` ends. */
  function StopFrom(s: string, i: nat, stop: Stop): (e: nat)
    requires i <= |s|
    ensures i <= e <= |s|
    ensures StopsAt(s, e, stop)
    ensures forall k :: i <= k < e ==> !StopsAt(s, k, stop)
    decreases |s| - i
  {
    if StopsAt(s, i, stop) then i else StopFrom(s, i + 1, stop)
  }

  /** The last newline in `s[lo..hi]`, if any. */
  function LastNewline(s: string, lo: nat, hi: nat): (r: Option<nat>)
    requires lo <= hi <= |s|
    ensures r.Some? ==> lo <= r.value < hi && s[r.value] == '\n'
    ensures r.Some? ==> forall k :: r.value < k < hi ==> s[k] != '\n'
    ensures r.None? ==> forall k :: lo <= k < hi ==> s[k] != '\n'
    decreases hi - lo
  {
    if hi == lo then None
    else if s[hi - 1] == '\n' then Some(hi - 1)
    else LastNewline(s, lo, hi - 1)
  }

  function Min(a: int, b: int): int {
    if a <= b then a else b
  }

  /** Every character of `s[lo..hi]` is a `\s`. */
  predicate AllSpace(s: string, lo: nat, hi: nat)
    requires lo <= hi <= |s|
  {
    forall k :: lo <= k < hi ==> IsRegexSpace(s[k])
  }

  /** The separator after a marker ending at `q` can end at `g`, where the
      group would start: for `\s*\n`, `s[q..g]` is all `\s` and ends in a
      newline; for `\s*-\s*`, spaces, a dash at some `d`, spaces. Either
      way `(.+?)` needs the character at `g`. */
  predicate SepEndsAt(s: string, q: nat, g: nat, lead: Lead) {
    && q < g < |s|
    && match lead
       case LineBreak => s[g - 1] == '\n' && AllSpace(s, q, g)
       case Dash =>
         exists d: nat {:trigger AllSpace(s, q, d)} ::
           q <= d < g && AllSpace(s, q, d) && s[d] == '-' && AllSpace(s, d + 1, g)
  }

  /** Where the group starts when the marker ends at `q`, after the greedy
      `\s*` has backtracked just far enough that the separator matches and
      `(.+?)` still has a character to take; nothing if no backtracking
      works. For `\s*\n` that is the last newline of the run of spaces that
      is not the final character; for `\s*-\s*` the `-` must follow the
      spaces at once, and the second run gives back its last space only when
      it reaches the end of the input. */
  function GroupStart(s: string, q: nat, lead: Lead): (r: Option<nat>)
    requires q <= |s|
    ensures r.Some? ==> q < r.value < |s|
    ensures r.Some? <==> exists g: nat {:trigger SepEndsAt(s, q, g, lead)} :: SepEndsAt(s, q, g, lead)
    ensures r.Some? ==> SepEndsAt(s, q, r.value, lead)
    ensures r.Some? ==> forall g: nat {:trigger SepEndsAt(s, q, g, lead)} :: SepEndsAt(s, q, g, lead) ==> g <= r.value
  {
    match lead
    case LineBreak =>
      if q == |s| then None
      else
        (match LastNewline(s, q, Min(q + SpaceRun(s, q), |s| - 1))
         case None => None
         case Some(i) =>
           assert SepEndsAt(s, q, i + 1, lead);
           Some(i + 1))
    case Dash =>
      var d := q + SpaceRun(s, q);
      if d + 1 < |s| && s[d] == '-' then
        var g := Min(d + 1 + SpaceRun(s, d + 1), |s| - 1);
        assert AllSpace(s, q, d) && AllSpace(s, d + 1, g);
        assert SepEndsAt(s, q, g, lead);
        Some(g)
      else None
  }

  /** A match of the group: `body[start..end]`. */
  datatype Span = Span(start: nat, end: nat)

  /** The match of `pat` that starts exactly at index `p`, if there is one. */
  function MatchAt(s: string, p: nat, pat: Pattern): (r: Option<Span>)
    requires p <= |s|
    ensures r.Some? ==> p + |pat.marker| < r.value.start < r.value.end <= |s|
    ensures r.Some? ==> StartsAt(s, p, pat.marker) && StopsAt(s, r.value.end, pat.stop)
    ensures r.Some? ==> forall k :: r.value.start < k < r.value.end ==> !StopsAt(s, k, pat.stop)
  {
    if !StartsAt(s, p, pat.marker) then None
    else match GroupStart(s, p + |pat.marker|, pat.lead)
      case None => None
      case Some(g) => Some(Span(g, StopFrom(s, g + 1, pat.stop)))
  }

  /** A match starts at `p` exactly when the marker is there and some
      separator follows it; the group then starts where the greedy `\s*`
      leaves it, at the last such separator end. */
  lemma MatchAtIsRegexMatch(s: string, p: nat, pat: Pattern)
    requires p <= |s|
    ensures MatchAt(s, p, pat).Some? <==>
              StartsAt(s, p, pat.marker)
              && exists g: nat {:trigger SepEndsAt(s, p + |pat.marker|, g, pat.lead)} ::
                   SepEndsAt(s, p + |pat.marker|, g, pat.lead)
    ensures MatchAt(s, p, pat).Some? ==>
              && SepEndsAt(s, p + |pat.marker|, MatchAt(s, p, pat).value.start, pat.lead)
              && forall g: nat {:trigger SepEndsAt(s, p + |pat.marker|, g, pat.lead)} ::
                   SepEndsAt(s, p + |pat.marker|, g, pat.lead) ==> g <= MatchAt(s, p, pat).value.start
  {
    if StartsAt(s, p, pat.marker) {
      var _ := GroupStart(s, p + |pat.marker|, pat.lead);
    }
  }

  /** `Matcher.find()` from index `p`: the leftmost index at which a match
      starts. */
  function FindFrom(s: string, p: nat, pat: Pattern): (r: Option<nat>)
    requires p <= |s|
    ensures r.None? ==> forall k :: p <= k <= |s| ==> MatchAt(s, k, pat).None?
    ensures r.Some? ==> p <= r.value <= |s| && MatchAt(s, r.value, pat).Some?
    ensures r.Some? ==> forall j :: p <= j < r.value ==> MatchAt(s, j, pat).None?
    decreases |s| - p
  {
    if MatchAt(s, p, pat).Some? then Some(p)
    else if p == |s| then None
    else FindFrom(s, p + 1, pat)
  }

  /** `group(1)` of the first match of `pat` in `body`, if `find()` succeeds. */
  function Capture(body: string, pat: Pattern): (r: Option<string>)
    ensures (forall k :: !StartsAt(body, k, pat.marker)) ==> r.None?
    ensures r.None? <==> forall k :: 0 <= k <= |body| ==> MatchAt(body, k, pat).None?
    ensures r.Some? ==> r.value != []
    ensures r.Some? ==>
              exists p :: 0 <= p <= |body| && MatchAt(body, p, pat).Some?
                && (forall j :: 0 <= j < p ==> MatchAt(body, j, pat).None?)
                && r.value == body[MatchAt(body, p, pat).value.start..MatchAt(body, p, pat).value.end]
  {
    match FindFrom(body, 0, pat)
    case None => None
    case Some(p) =>
      var span := MatchAt(body, p, pat).value;
      Some(body[span.start..span.end])
  }

  predicate NonEmpty(s: string) {
    s != []
  }

  /** A trimmed description line that is a bullet. */
  predicate IsBullet(s: string) {
    StartsWith(s, "-")
  }

  /** `s.substring(1).trim()`, applied to bullets only. */
  function StripBullet(s: string): string {
    if s == [] then s else Trim(s[1..])
  }

  /** Trim every token, drop the empty ones. */
  function NamesOf(tokens: seq<string>): seq<string> {
    Filter(Map(tokens, Trim), NonEmpty)
  }

  /** Trim every line, keep the bullets, strip their marker, drop the empty
      ones. */
  function BulletsOf(lines: seq<string>): seq<string> {
    Filter(Map(Filter(Map(lines, Trim), IsBullet), StripBullet), NonEmpty)
  }

  /** The feature-list pipeline: split on commas, trim, drop empties. Every
      name is non-empty, trimmed and comma-free. */
  function SplitNames(t: string): (r: seq<string>)
    ensures forall n :: n in r ==> n != [] && IsTrimmed(n) && ',' !in n
  {
    var tokens := Split(t, ',');
    assert forall x :: x in tokens ==> x in Tokens(t, ',');
    NamesOf(tokens)
  }

  /** The description pipeline: split on newlines, then `BulletsOf`. Every
      item is non-empty, trimmed and a single line. */
  function SplitBullets(t: string): (r: seq<string>)
    ensures forall n :: n in r ==> n != [] && IsTrimmed(n) && '\n' !in n
  {
    var lines := Split(t, '\n');
    assert forall x :: x in lines ==> x in Tokens(t, '\n');
    BulletsWellFormed(lines);
    BulletsOf(lines)
  }

  lemma TrimAllLacks(xs: seq<string>, c: char)
    requires forall x :: x in xs ==> c !in x
    ensures forall y :: y in Map(xs, Trim) ==> c !in y && IsTrimmed(y)
  {
    var ys := Map(xs, Trim);
    forall y | y in ys
      ensures c !in y && IsTrimmed(y)
    {
      var i :| 0 <= i < |ys| && ys[i] == y;
      assert y == Trim(xs[i]);
      assert xs[i] in xs;
    }
  }

  lemma StripAllLacks(xs: seq<string>, c: char)
    requires forall x :: x in xs ==> c !in x
    ensures forall y :: y in Map(xs, StripBullet) ==> c !in y && IsTrimmed(y)
  {
    var ys := Map(xs, StripBullet);
    forall y | y in ys
      ensures c !in y && IsTrimmed(y)
    {
      var i :| 0 <= i < |ys| && ys[i] == y;
      var x := xs[i];
      assert x in xs;
      if x != [] {
        assert forall d :: d in x[1..] ==> d in x;
      }
    }
  }

  /** Items made from newline-free lines are non-empty, trimmed and
      newline-free. */
  lemma BulletsWellFormed(lines: seq<string>)
    requires forall x :: x in lines ==> '\n' !in x
    ensures forall n :: n in BulletsOf(lines) ==> n != [] && IsTrimmed(n) && '\n' !in n
  {
    TrimAllLacks(lines, '\n');
    var bullets := Filter(Map(lines, Trim), IsBullet);
    StripAllLacks(bullets, '\n');
  }

  /** `extractSummary`: the trimmed capture, or "" when nothing matches. */
  function ExtractSummary(body: string): (r: string)
    ensures IsTrimmed(r)
    ensures Capture(body, SummaryPattern).None? ==> r == ""
    ensures Capture(body, SummaryPattern).Some? ==> r == Trim(Capture(body, SummaryPattern).value)
  {
    match Capture(body, SummaryPattern)
    case None => ""
    case Some(c) => Trim(c)
  }

  /** `extractMainFeatures`. */
  function ExtractMainFeatures(body: string): (r: seq<string>)
    ensures Capture(body, MainPattern).None? ==> r == []
    ensures Capture(body, MainPattern).Some? ==>
              r == NamesOf(Tokens(Trim(Capture(body, MainPattern).value), ','))
    ensures forall n :: n in r ==> n != [] && IsTrimmed(n) && ',' !in n
  {
    match Capture(body, MainPattern)
    case None => []
    case Some(c) =>
      SplitLikeTokens(Trim(c), ',');
      SplitNames(Trim(c))
  }

  /** `extractRelatedFeatures`. */
  function ExtractRelatedFeatures(body: string): (r: seq<string>)
    ensures Capture(body, RelatedPattern).None? ==> r == []
    ensures Capture(body, RelatedPattern).Some? ==>
              r == NamesOf(Tokens(Trim(Capture(body, RelatedPattern).value), ','))
    ensures forall n :: n in r ==> n != [] && IsTrimmed(n) && ',' !in n
  {
    match Capture(body, RelatedPattern)
    case None => []
    case Some(c) =>
      SplitLikeTokens(Trim(c), ',');
      SplitNames(Trim(c))
  }

  /** `extractDescription`. */
  function ExtractDescription(body: string): (r: seq<string>)
    ensures Capture(body, DescriptionPattern).None? ==> r == []
    ensures Capture(body, DescriptionPattern).Some? ==>
              r == BulletsOf(Tokens(Trim(Capture(body, DescriptionPattern).value), '\n'))
    ensures forall n :: n in r ==> n != [] && IsTrimmed(n) && '\n' !in n
  {
    match Capture(body, DescriptionPattern)
    case None => []
    case Some(c) =>
      SplitLikeTokens(Trim(c), '\n');
      SplitBullets(Trim(c))
  }

  /** `parse`: title and changed files pass through unchanged, the other
      fields come from the body. The body is never null here (a null body
      makes the matcher throw). */
  function Parse(title: string, body: string, changedFiles: seq<string>): (r: PrContext)
    ensures r.title == title && r.changedFiles == changedFiles
    ensures IsTrimmed(r.summary)
    ensures forall n :: n in r.mainFeatures ==> n != [] && IsTrimmed(n) && ',' !in n
    ensures forall n :: n in r.relatedFeatures ==> n != [] && IsTrimmed(n) && ',' !in n
    ensures forall n :: n in r.description ==> n != [] && IsTrimmed(n) && '\n' !in n
  {
    PrContext(
      title,
      ExtractSummary(body),
      ExtractMainFeatures(body),
      ExtractRelatedFeatures(body),
      ExtractDescription(body),
      changedFiles)
  }

  lemma NamesOfAppend(a: seq<string>, b: seq<string>)
    ensures NamesOf(a + b) == NamesOf(a) + NamesOf(b)
  {
    MapAppend(a, b, Trim);
    FilterAppend(Map(a, Trim), Map(b, Trim), NonEmpty);
  }

  lemma BulletsOfAppend(a: seq<string>, b: seq<string>)
    ensures BulletsOf(a + b) == BulletsOf(a) + BulletsOf(b)
  {
    MapAppend(a, b, Trim);
    FilterAppend(Map(a, Trim), Map(b, Trim), IsBullet);
    var fa := Filter(Map(a, Trim), IsBullet);
    var fb := Filter(Map(b, Trim), IsBullet);
    MapAppend(fa, fb, StripBullet);
    FilterAppend(Map(fa, StripBullet), Map(fb, StripBullet), NonEmpty);
  }

  /** Empty pieces contribute nothing to either pipeline. */
  lemma EmptyPiecesVanish(e: seq<string>)
    requires forall x :: x in e ==> x == []
    ensures NamesOf(e) == [] && BulletsOf(e) == []
  {
    var trimmed := Map(e, Trim);
    forall y | y in trimmed
      ensures y == []
    {
      var j :| 0 <= j < |trimmed| && trimmed[j] == y;
      assert e[j] in e;
      assert |Trim(e[j])| <= |e[j]|;
    }
    FilterNone(trimmed, NonEmpty);
    FilterNone(trimmed, IsBullet);
  }

  /** Dropping the trailing empty pieces, as `String.split` does, never
      changes what either pipeline yields. */
  lemma SplitLikeTokens(t: string, d: char)
    ensures NamesOf(Split(t, d)) == NamesOf(Tokens(t, d))
    ensures BulletsOf(Split(t, d)) == BulletsOf(Tokens(t, d))
  {
    var ts := Tokens(t, d);
    var r := Split(t, d);
    var e := ts[|r|..];
    assert ts == r + e;
    assert forall x :: x in e ==> x == [];
    EmptyPiecesVanish(e);
    NamesOfAppend(r, e);
    BulletsOfAppend(r, e);
  }

  /** The names of comma-joined text are the names of each side, in order. */
  lemma SplitNamesAppend(a: string, b: string)
    ensures SplitNames(a + [','] + b) == SplitNames(a) + SplitNames(b)
  {
    SplitLikeTokens(a + [','] + b, ',');
    SplitLikeTokens(a, ',');
    SplitLikeTokens(b, ',');
    TokensAppend(a, b, ',');
    NamesOfAppend(Tokens(a, ','), Tokens(b, ','));
  }

  /** Text without a comma names one feature, its trimmed self, unless that
      is empty. */
  lemma SplitNamesSingle(t: string)
    requires ',' !in t
    ensures SplitNames(t) == if Trim(t) == [] then [] else [Trim(t)]
  {
    assert Split(t, ',') == [t];
    assert Map([t], Trim) == [Trim(t)];
  }

  /** The items of newline-joined text are the items of each side, in order. */
  lemma SplitBulletsAppend(a: string, b: string)
    ensures SplitBullets(a + ['\n'] + b) == SplitBullets(a) + SplitBullets(b)
  {
    SplitLikeTokens(a + ['\n'] + b, '\n');
    SplitLikeTokens(a, '\n');
    SplitLikeTokens(b, '\n');
    TokensAppend(a, b, '\n');
    BulletsOfAppend(Tokens(a, '\n'), Tokens(b, '\n'));
  }

  /** A single line yields one item exactly when, trimmed, it starts with `-`
      and something other than blanks follows; the item is that rest,
      trimmed. */
  lemma SplitBulletsSingle(line: string)
    requires '\n' !in line
    ensures var t := Trim(line);
            SplitBullets(line)
              == if IsBullet(t) && Trim(t[1..]) != [] then [Trim(t[1..])] else []
  {
    assert Split(line, '\n') == [line];
    assert Map([line], Trim) == [Trim(line)];
    var t := Trim(line);
    if IsBullet(t) {
      assert Filter([t], IsBullet) == [t];
      assert Map([t], StripBullet) == [StripBullet(t)];
    } else {
      assert Filter([t], IsBullet) == [];
    }
  }

  /** No `(?=\n##|$)` stop before an ordinary character. */
  lemma NoHeadingStopAt(s: string, i: nat)
    requires i < |s| && !IsLineTerminator(s[i])
    ensures !StopsAt(s, i, NextHeading)
  {
    StartsAtHead(s, i, "\n##");
  }

  /** A summary heading followed by blank lines and another heading. */
  const BlankLinesBody := "## summary\n\n\n## x"

  /** The greedy `\s*` of the summary pattern takes the blank lines with it
      and gives back only the last newline, so the heading after them
      becomes the summary. */
  lemma SummaryAfterBlankLines()
    ensures ExtractSummary(BlankLinesBody) == "## x"
  {
    BlankLinesMatch();
    assert FindFrom(BlankLinesBody, 0, SummaryPattern) == Some(0);
    assert BlankLinesBody[13..17] == "## x";
  }

  lemma BlankLinesMatch()
    ensures MatchAt(BlankLinesBody, 0, SummaryPattern) == Some(Span(13, 17))
  {
    var s := BlankLinesBody;
    assert StartsAt(s, 0, SummaryPattern.marker);
    BlankLinesGroupStart();
    BlankLinesStop();
  }

  lemma BlankLinesGroupStart()
    ensures GroupStart(BlankLinesBody, 10, LineBreak) == Some(13)
  {
    var s := BlankLinesBody;
    assert SpaceRun(s, 10) == 3;
    assert LastNewline(s, 10, 13) == Some(12);
  }

  lemma BlankLinesStop()
    ensures StopFrom(BlankLinesBody, 14, NextHeading) == 17
  {
    var s := BlankLinesBody;
    assert |s| == 17 && s[14] == '#' && s[15] == ' ' && s[16] == 'x';
    NoHeadingStopAt(s, 14);
    NoHeadingStopAt(s, 15);
    NoHeadingStopAt(s, 16);
  }

  /** A body that opens with the summary heading, one trimmed line and the
      next heading has that line as its summary. */
  lemma LeadingSummary(line: string, rest: string)
    requires line != [] && IsTrimmed(line)
    requires forall k :: 0 <= k < |line| ==> !IsLineTerminator(line[k])
    ensures ExtractSummary("## summary\n" + line + "\n##" + rest) == line
  {
    var s := "## summary\n" + line + "\n##" + rest;
    LeadingSummaryMatch(s, line, rest);
    assert FindFrom(s, 0, SummaryPattern) == Some(0);
    assert s[11..11 + |line|] == line;
    TrimTrimmed(line);
  }

  lemma LeadingSummaryMatch(s: string, line: string, rest: string)
    requires s == "## summary\n" + line + "\n##" + rest
    requires line != [] && IsTrimmed(line)
    requires forall k :: 0 <= k < |line| ==> !IsLineTerminator(line[k])
    ensures MatchAt(s, 0, SummaryPattern) == Some(Span(11, 11 + |line|))
  {
    assert s == "" + "## summary" + ("\n" + line + "\n##" + rest);
    StartsAtMiddle("", "## summary", "\n" + line + "\n##" + rest);
    LeadingSummaryGroup(s, line, rest);
    LeadingSummaryStop(s, line, rest);
  }

  lemma LeadingSummaryGroup(s: string, line: string, rest: string)
    requires s == "## summary\n" + line + "\n##" + rest
    requires line != [] && IsTrimmed(line)
    ensures GroupStart(s, 10, LineBreak) == Some(11)
  {
    assert s[10] == '\n' && s[11] == line[0] && !IsRegexSpace(s[11]);
    assert SpaceRun(s, 11) == 0;
    assert LastNewline(s, 10, 11) == Some(10);
  }

  lemma LeadingSummaryStop(s: string, line: string, rest: string)
    requires s == "## summary\n" + line + "\n##" + rest
    requires forall k :: 0 <= k < |line| ==> !IsLineTerminator(line[k])
    requires line != []
    ensures StopFrom(s, 12, NextHeading) == 11 + |line|
  {
    var e := 11 + |line|;
    forall k | 12 <= k < e ensures !StopsAt(s, k, NextHeading) {
      assert s[k] == line[k - 11];
      NoHeadingStopAt(s, k);
    }
    assert s == ("## summary\n" + line) + "\n##" + rest;
    StartsAtMiddle("## summary\n" + line, "\n##", rest);
    StopFromSkips(s, 12, e, NextHeading);
  }

  /** The summary line of a body in the documented layout. */
  const ExampleSummaryLine := "상품 결제 할인"

  /** What follows the summary line's closing `\n##` in that body. */
  const ExampleRest := " feature\nmain - PAYMENT\nrelated - ALERT\n"
                       + "## description\n - 17:00 ~ 18:00 결제시 할인 로직 추가\n - 결제 전 시간 검증 로직 추가\n"

  /** A pull request body in the documented layout. */
  const ExampleBody := "## summary\n" + ExampleSummaryLine + "\n##" + ExampleRest

  lemma ExampleSummary()
    ensures ExtractSummary(ExampleBody) == ExampleSummaryLine
  {
    ExampleSummaryLineShape();
    LeadingSummary(ExampleSummaryLine, ExampleRest);
  }

  lemma ExampleSummaryLineShape()
    ensures ExampleSummaryLine != [] && IsTrimmed(ExampleSummaryLine)
    ensures forall k :: 0 <= k < |ExampleSummaryLine| ==> !IsLineTerminator(ExampleSummaryLine[k])
  {
    var line := ExampleSummaryLine;
    assert |line| == 8;
  }

  /** The lookahead scan passes over positions where it fails. */
  lemma {:induction false} StopFromSkips(s: string, i: nat, j: nat, stop: Stop)
    requires i <= j <= |s|
    requires forall k :: i <= k < j ==> !StopsAt(s, k, stop)
    ensures StopFrom(s, i, stop) == StopFrom(s, j, stop)
    decreases j - i
  {
    if i < j {
      StopFromSkips(s, i + 1, j, stop);
    }
  }

  /** An empty body parses to empty fields. */
  lemma EmptyBodyGivesEmptyFields(title: string, changedFiles: seq<string>)
    ensures Parse(title, "", changedFiles) == PrContext(title, "", [], [], [], changedFiles)
  {
    assert forall k :: !StartsAt("", k, SummaryPattern.marker);
    assert forall k :: !StartsAt("", k, MainPattern.marker);
    assert forall k :: !StartsAt("", k, RelatedPattern.marker);
    assert forall k :: !StartsAt("", k, DescriptionPattern.marker);
  }

  /** A body without a description heading has no description items, and one
      without a summary heading has an empty summary. */
  lemma MissingSectionsAreEmpty(title: string, body: string, changedFiles: seq<string>)
    ensures (forall k :: !StartsAt(body, k, "## description")) ==>
              Parse(title, body, changedFiles).description == []
    ensures (forall k :: !StartsAt(body, k, "## summary")) ==>
              Parse(title, body, changedFiles).summary == ""
    ensures (forall k :: !StartsAt(body, k, "main")) ==>
              Parse(title, body, changedFiles).mainFeatures == []
    ensures (forall k :: !StartsAt(body, k, "related")) ==>
              Parse(title, body, changedFiles).relatedFeatures == []
  {
  }
}
