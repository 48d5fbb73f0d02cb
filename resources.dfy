/**
 * Learning resources: a line-oriented parser that turns a link file into a
 * subject -> links table, the subject-name normaliser, the lookup of a topic
 * in such a table (exact key first, then the first related subject) and the
 * builder of YouTube search URLs. The two link tables are parameters; where
 * they come from (files found next to the program) is not part of this module.
 */
module Resources {
  import opened Wrappers
  import opened Text
  import opened OrderedDict

  type Links = seq<string>

  predicate AllHttp(links: Links) {
    forall i :: 0 <= i < |links| ==> StartsWith(links[i], "http")
  }

  // ---------------------------------------------------------------- parsing a link file

  /** What the parser carries from line to line: the table so far, the current
      subject (none before the first subject line) and its links. */
  datatype ParseState = ParseState(resources: Dict<Links>, subject: Option<string>, links: Links)

  const Start: ParseState := ParseState([], None, [])

  /** `if current_subject`: a subject is set and is not empty. */
  predicate HasSubject(st: ParseState) {
    st.subject.Some? && st.subject.value != []
  }

  /** Stores the current subject's links, if there is a subject and it has links. */
  function Save(st: ParseState): Dict<Links> {
    if HasSubject(st) && st.links != [] then Put(st.resources, st.subject.value, st.links) else st.resources
  }

  /** A stripped line with every run of white space made one space. */
  function Clean(raw: string): string {
    Squeeze(Strip(raw))
  }

  /** The text before the first '-', stripped. */
  function SubjectPart(clean: string): string
    requires '-' in clean
  {
    Strip(Before(clean, '-'))
  }

  /** The text after the first '-', stripped. */
  function LinkPart(clean: string): string
    requires '-' in clean
  {
    Strip(After(clean, '-'))
  }

  /** A subject line: it has a '-', and the text before the first one is
      non-empty, does not start with a digit and is alphabetic once its spaces
      are removed. */
  predicate IsSubjectLine(clean: string) {
    '-' in clean &&
    var left := SubjectPart(clean);
    left != [] && !IsDigit(left[0]) && IsAlphaString(ReplaceAll(left, " ", ""))
  }

  /** `text.split('.', 1)[1].strip()`, kept when it starts with "http". */
  function NumberedLink(text: string): (r: Option<string>)
    requires '.' in text
    ensures r.Some? ==> StartsWith(r.value, "http")
  {
    var url := Strip(After(text, '.'));
    if StartsWith(url, "http") then Some(url) else None
  }

  /** The links the right-hand side of a subject line contributes: a numbered
      link ("1. http...") or a bare one. */
  function FirstLinks(right: string): (r: Links)
    ensures |r| <= 1 && AllHttp(r)
  {
    if right == [] then []
    else if IsDigit(right[0]) && '.' in right then
      match NumberedLink(right)
      case Some(u) => [u]
      case None => []
    else if StartsWith(right, "http") then [right]
    else []
  }

  /** One pass of the parser's loop, on one line of the file. */
  function ParseLine(st: ParseState, raw: string): ParseState {
    var line := Strip(raw);
    if line == [] then st
    else
      var clean := Squeeze(line);
      if IsSubjectLine(clean) then
        ParseState(Save(st), Some(Lower(SubjectPart(clean))), FirstLinks(LinkPart(clean)))
      else LinkLine(st, clean)
  }

  /** A line that is not a subject line: a numbered link ("2. http...") or a
      bare link is added to the current subject's links, when there is a subject. */
  function LinkLine(st: ParseState, clean: string): ParseState
    requires clean != []
  {
    if IsDigit(clean[0]) && '.' in clean then
      if HasSubject(st) then
        match NumberedLink(clean)
        case Some(u) => st.(links := st.links + [u])
        case None => st
      else st
    else if StartsWith(clean, "http") then
      if HasSubject(st) then st.(links := st.links + [clean]) else st
    else st
  }

  /** The parser's state after the lines, read first to last. */
  function ParseLines(st: ParseState, lines: seq<string>): ParseState
    decreases |lines|
  {
    if lines == [] then st else ParseLine(ParseLines(st, lines[..|lines| - 1]), lines[|lines| - 1])
  }

  /** `parse_resource_file` on the lines of a file: the table once the last
      subject is stored. */
  function ParseResources(lines: seq<string>): Dict<Links> {
    Save(ParseLines(Start, lines))
  }

  /** `parse_resource_file`, line by line. */
  method ParseResourceFile(lines: seq<string>) returns (resources: Dict<Links>)
    ensures resources == ParseResources(lines)
  {
    resources := [];
    var currentSubject: Option<string> := None;
    var currentLinks: Links := [];
    for i := 0 to |lines|
      invariant ParseState(resources, currentSubject, currentLinks) == ParseLines(Start, lines[..i])
    {
      assert lines[..i + 1][..i] == lines[..i];
      resources, currentSubject, currentLinks := ReadLine(resources, currentSubject, currentLinks, lines[i]);
    }
    assert lines[..|lines|] == lines;
    if currentSubject.Some? && currentSubject.value != [] && currentLinks != [] {
      resources := Put(resources, currentSubject.value, currentLinks);
    }
  }

  /** The body of the parser's loop: one line read into the parser's variables. */
  method ReadLine(resources: Dict<Links>, currentSubject: Option<string>, currentLinks: Links, raw: string)
    returns (resources': Dict<Links>, subject': Option<string>, links': Links)
    ensures ParseState(resources', subject', links')
         == ParseLine(ParseState(resources, currentSubject, currentLinks), raw)
  {
    resources', subject', links' := resources, currentSubject, currentLinks;
    var line := Strip(raw);
    if line == [] {
      return;
    }
    var clean := Squeeze(line);
    if '-' in clean {
      var left := SubjectPart(clean);
      if left != [] && !IsDigit(left[0]) && IsAlphaString(ReplaceAll(left, " ", "")) {
        resources', subject', links' := ReadSubjectLine(resources, currentSubject, currentLinks, clean);
        return;
      }
    }
    links' := ReadLinkLine(currentSubject, currentLinks, clean);
  }

  /** A line that is not a subject line, read into the current subject's links. */
  method ReadLinkLine(currentSubject: Option<string>, currentLinks: Links, clean: string) returns (links': Links)
    requires clean != []
    ensures forall resources :: ParseState(resources, currentSubject, links')
                              == LinkLine(ParseState(resources, currentSubject, currentLinks), clean)
  {
    links' := currentLinks;
    if IsDigit(clean[0]) && '.' in clean {
      if currentSubject.Some? && currentSubject.value != [] {
        var url := NumberedLink(clean);
        if url.Some? {
          links' := links' + [url.value];
        }
      }
    } else if StartsWith(clean, "http") {
      if currentSubject.Some? && currentSubject.value != [] {
        links' := links' + [clean];
      }
    }
  }

  /** A subject line: the previous subject is stored if it has links, and the
      new subject starts with the link of the line's right-hand side, if any. */
  method ReadSubjectLine(resources: Dict<Links>, currentSubject: Option<string>, currentLinks: Links, clean: string)
    returns (resources': Dict<Links>, subject': Option<string>, links': Links)
    requires '-' in clean
    ensures resources' == Save(ParseState(resources, currentSubject, currentLinks))
    ensures subject' == Some(Lower(SubjectPart(clean)))
    ensures links' == FirstLinks(LinkPart(clean))
  {
    resources' := SaveSubject(resources, currentSubject, currentLinks);
    subject' := Some(Lower(SubjectPart(clean)));
    links' := SubjectLineLinks(LinkPart(clean));
  }

  /** `if current_subject and current_links: resources[current_subject] = current_links.copy()` */
  method SaveSubject(resources: Dict<Links>, currentSubject: Option<string>, currentLinks: Links)
    returns (resources': Dict<Links>)
    ensures resources' == Save(ParseState(resources, currentSubject, currentLinks))
  {
    resources' := resources;
    if currentSubject.Some? && currentSubject.value != [] && currentLinks != [] {
      resources' := Put(resources, currentSubject.value, currentLinks);
    }
  }

  /** The link on the right-hand side of a subject line, if it has one. */
  method SubjectLineLinks(right: string) returns (links': Links)
    ensures links' == FirstLinks(right)
  {
    links' := [];
    if right != [] {
      if IsDigit(right[0]) && '.' in right {
        var url := NumberedLink(right);
        if url.Some? {
          links' := [url.value];
        }
      } else if StartsWith(right, "http") {
        links' := [right];
      }
    }
  }

  /** What holds of every table the parser builds: distinct keys, each a
      non-empty lower-case subject with a non-empty list of http links. */
  predicate WellFormedTable(d: Dict<Links>) {
    DistinctKeys(d) &&
    forall e :: e in d ==> e.0 != [] && IsLowerCase(e.0) && e.1 != [] && AllHttp(e.1)
  }

  predicate WellFormedState(st: ParseState) {
    WellFormedTable(st.resources)
    && (st.subject.Some? ==> IsLowerCase(st.subject.value))
    && AllHttp(st.links)
  }

  lemma SavePreserves(st: ParseState)
    requires WellFormedState(st)
    ensures WellFormedTable(Save(st))
  {
  }

  lemma LowerIsLowerCase(s: string)
    ensures IsLowerCase(Lower(s))
  {
  }

  lemma LinkLinePreserves(st: ParseState, clean: string)
    requires clean != [] && WellFormedState(st)
    ensures WellFormedState(LinkLine(st, clean))
  {
    if IsDigit(clean[0]) && '.' in clean {
      if HasSubject(st) && NumberedLink(clean).Some? {
        AppendHttp(st.links, NumberedLink(clean).value);
      }
    } else if StartsWith(clean, "http") && HasSubject(st) {
      AppendHttp(st.links, clean);
    }
  }

  lemma AppendHttp(links: Links, u: string)
    requires AllHttp(links) && StartsWith(u, "http")
    ensures AllHttp(links + [u])
  {
  }

  lemma ParseLinePreserves(st: ParseState, raw: string)
    requires WellFormedState(st)
    ensures WellFormedState(ParseLine(st, raw))
  {
    var line := Strip(raw);
    if line != [] {
      var clean := Squeeze(line);
      if IsSubjectLine(clean) {
        SavePreserves(st);
        LowerIsLowerCase(SubjectPart(clean));
      } else {
        LinkLinePreserves(st, clean);
      }
    }
  }

  lemma {:induction false} ParseLinesPreserves(st: ParseState, lines: seq<string>)
    requires WellFormedState(st)
    ensures WellFormedState(ParseLines(st, lines))
    decreases |lines|
  {
    if lines != [] {
      ParseLinesPreserves(st, lines[..|lines| - 1]);
      ParseLinePreserves(ParseLines(st, lines[..|lines| - 1]), lines[|lines| - 1]);
    }
  }

  /** Every table the parser returns has distinct, non-empty, lower-case
      subjects, each with a non-empty list of links that all start with
      "http": a subject without links is dropped. */
  lemma ParsedTableWellFormed(lines: seq<string>)
    ensures WellFormedTable(ParseResources(lines))
  {
    ParseLinesPreserves(Start, lines);
    SavePreserves(ParseLines(Start, lines));
  }

  /** Reading `a` then `b` is reading `a + b`. */
  lemma {:induction false} ParseLinesConcat(st: ParseState, a: seq<string>, b: seq<string>)
    ensures ParseLines(st, a + b) == ParseLines(ParseLines(st, a), b)
    decreases |b|
  {
    if b == [] {
      assert a + b == a;
    } else {
      assert (a + b)[..|a + b| - 1] == a + b[..|b| - 1];
      ParseLinesConcat(st, a, b[..|b| - 1]);
    }
  }

  /** Before the first subject line nothing is recorded: links there have no
      subject to go to. */
  lemma {:induction false} NoSubjectNoChange(lines: seq<string>)
    requires forall i :: 0 <= i < |lines| ==> !IsSubjectLine(Clean(lines[i]))
    ensures ParseLines(Start, lines) == Start
    decreases |lines|
  {
    if lines != [] {
      NoSubjectNoChange(lines[..|lines| - 1]);
      assert !IsSubjectLine(Clean(lines[|lines| - 1]));
    }
  }

  /** Lines that precede every subject line contribute nothing to the table. */
  lemma LinesBeforeSubjectsIgnored(pre: seq<string>, rest: seq<string>)
    requires forall i :: 0 <= i < |pre| ==> !IsSubjectLine(Clean(pre[i]))
    ensures ParseResources(pre + rest) == ParseResources(rest)
  {
    ParseLinesConcat(Start, pre, rest);
    NoSubjectNoChange(pre);
  }

  // ---------------------------------------------------------------- subject names

  /** The alias table of `normalize_subject`. */
  function Alias(name: string): (r: Option<string>)
    ensures r.Some? ==> IsLowerCase(r.value)
  {
    if name in ["maths", "math", "arithmetic", "fractions", "algebra", "geometry", "data analysis", "statistics"]
    then Some("maths")
    else if name in ["sst", "social studies"] then Some("social science")
    else if name in ["cs", "programming"] then Some("computer science")
    else None
  }

  /** Lower-cased, stripped and with the two misspellings of "science" corrected. */
  function Cleaned(subject: string): string {
    ReplaceAll(ReplaceAll(Strip(Lower(subject)), "scirnce", "science"), "sience", "science")
  }

  /** `normalize_subject`: the cleaned name, through the alias table. */
  function NormalizeSubject(subject: string): (r: string)
    ensures IsLowerCase(r)
    ensures Alias(Cleaned(subject)) == None ==> r == Cleaned(subject)
    ensures Alias(Cleaned(subject)) != None ==> r == Alias(Cleaned(subject)).value
  {
    CleanedIsLowerCase(subject);
    var n := Cleaned(subject);
    match Alias(n)
    case Some(v) => v
    case None => n
  }

  lemma {:induction false} ReplaceKeepsLowerCase(s: string, pat: string, rep: string)
    requires |pat| > 0 && IsLowerCase(s) && IsLowerCase(rep)
    ensures IsLowerCase(ReplaceAll(s, pat, rep))
    decreases |s|
  {
    if |s| >= |pat| {
      if s[..|pat|] == pat {
        ReplaceKeepsLowerCase(s[|pat|..], pat, rep);
      } else {
        ReplaceKeepsLowerCase(s[1..], pat, rep);
      }
    }
  }

  lemma StripKeepsLowerCase(s: string)
    requires IsLowerCase(s)
    ensures IsLowerCase(Strip(s))
  {
    var l := StripLeft(s);
    assert IsLowerCase(l);
  }

  lemma CleanedIsLowerCase(subject: string)
    ensures IsLowerCase(Cleaned(subject))
  {
    LowerIsLowerCase(subject);
    StripKeepsLowerCase(Lower(subject));
    ReplaceKeepsLowerCase(Strip(Lower(subject)), "scirnce", "science");
    ReplaceKeepsLowerCase(ReplaceAll(Strip(Lower(subject)), "scirnce", "science"), "sience", "science");
  }

  /** Every mathematical subject name is normalised to "maths". */
  lemma MathsAliases(subject: string)
    requires Cleaned(subject) in ["maths", "math", "arithmetic", "fractions", "algebra",
                                  "geometry", "data analysis", "statistics"]
    ensures NormalizeSubject(subject) == "maths"
  {
  }

  // ---------------------------------------------------------------- looking a topic up

  /** `a in b or b in a` for two subject names. */
  predicate Related(subject: string, name: string) {
    Contains(subject, name) || Contains(name, subject)
  }

  /** The position of the first subject of the table related to `name`, or
      the table's length when there is none. */
  function FirstRelated(d: Dict<Links>, name: string): (i: nat)
    ensures i <= |d|
    ensures forall j :: 0 <= j < i ==> !Related(d[j].0, name)
    ensures i < |d| ==> Related(d[i].0, name)
  {
    if d == [] then 0
    else if Related(d[0].0, name) then 0
    else 1 + FirstRelated(d[1..], name)
  }

  /** The links of a topic: those of its normalised name when that is a key,
      else those of the first related subject, else none. This is
      `get_website_links_for_topic`, and the base links of the YouTube lookup. */
  function LinksFor(table: Dict<Links>, topic: string): Links {
    var name := NormalizeSubject(topic);
    match Get(table, name)
    case Some(v) => v
    case None =>
      var i := FirstRelated(table, name);
      if i < |table| then table[i].1 else []
  }

  /** The lookup prefers an exact key to a related one, takes the first related
      subject otherwise, and finds nothing when no subject matches. */
  lemma LinksForCases(table: Dict<Links>, topic: string)
    requires DistinctKeys(table)
    ensures var name := NormalizeSubject(topic);
            && (forall i :: 0 <= i < |table| && table[i].0 == name ==> LinksFor(table, topic) == table[i].1)
            && (name !in Keys(table) ==>
                  LinksFor(table, topic) == if FirstRelated(table, name) < |table|
                                            then table[FirstRelated(table, name)].1 else [])
            && ((name !in Keys(table) && forall i :: 0 <= i < |table| ==> !Related(table[i].0, name))
                ==> LinksFor(table, topic) == [])
  {
  }

  /** On a table the parser built, the lookup finds nothing exactly when no
      subject matches the topic. */
  lemma LinksForEmpty(table: Dict<Links>, topic: string)
    requires WellFormedTable(table)
    ensures var name := NormalizeSubject(topic);
            LinksFor(table, topic) == [] <==>
              name !in Keys(table) && forall i :: 0 <= i < |table| ==> !Related(table[i].0, name)
  {
    var name := NormalizeSubject(topic);
    match Get(table, name)
    case Some(v) =>
      assert (name, v) in table;
    case None =>
      var i := FirstRelated(table, name);
      if i < |table| {
        assert table[i] in table;
      }
  }

  // ---------------------------------------------------------------- YouTube search links

  /** The class level a caller may give: none, a number, or a text such as
      "Class 9". */
  datatype ClassLevel = NoClass | ClassNumber(n: nat) | ClassText(text: string)

  /** Whether the level counts as given (Python truthiness). */
  predicate LevelGiven(level: ClassLevel) {
    match level
    case NoClass => false
    case ClassNumber(n) => n != 0
    case ClassText(t) => t != []
  }

  /** `str(class_level).replace('class', '').replace('Class', '').strip()` */
  function ClassNumberText(level: ClassLevel): string {
    var s := match level
      case NoClass => "None"
      case ClassNumber(n) => NatToString(n)
      case ClassText(t) => t;
    Strip(ReplaceAll(ReplaceAll(s, "class", ""), "Class", ""))
  }

  /** The channel of a YouTube link: after the last '@', or after the last
      "/c/" of a youtube.com/c/ link, up to the next '/'; empty when neither. */
  function ChannelName(link: string): (c: string)
    ensures '/' !in c
  {
    if '@' in link then Before(LastPiece(link, "@"), '/')
    else if Contains(link, "youtube.com/c/") then Before(LastPiece(link, "/c/"), '/')
    else []
  }

  const SearchPrefix: string := "https://www.youtube.com/results?search_query="

  /** The search query for one base link, before spaces become '+'. */
  function SearchQuery(topic: string, level: ClassLevel, link: string): string {
    if LevelGiven(level) then ClassQuery(topic, ClassNumberText(level), ChannelName(link))
    else PlainQuery(topic, ChannelName(link))
  }

  /** "topic class N channel", or "topic class N" without a channel. */
  function ClassQuery(topic: string, classNum: string, channel: string): string {
    if channel != [] then topic + " class " + classNum + " " + channel
    else topic + " class " + classNum
  }

  /** The search URL of one link for a given class number. */
  function ClassUrl(topic: string, classNum: string, link: string): string {
    SearchPrefix + ReplaceChar(ClassQuery(topic, classNum, ChannelName(link)), ' ', '+')
  }

  /** The search URL of one link without a class level. */
  function PlainUrl(topic: string, link: string): string {
    SearchPrefix + ReplaceChar(PlainQuery(topic, ChannelName(link)), ' ', '+')
  }

  /** "topic channel", or the topic alone without a channel. */
  function PlainQuery(topic: string, channel: string): string {
    if channel != [] then topic + " " + channel else topic
  }

  function SearchUrl(topic: string, level: ClassLevel, link: string): string {
    SearchPrefix + ReplaceChar(SearchQuery(topic, level, link), ' ', '+')
  }

  /** One search URL per base link. */
  function SearchLinks(base: Links, topic: string, level: ClassLevel): (r: seq<string>)
    ensures |r| == |base|
    decreases |base|
  {
    if base == [] then []
    else SearchLinks(base[..|base| - 1], topic, level) + [SearchUrl(topic, level, base[|base| - 1])]
  }

  /** The URL at each position is the one built from the base link there. */
  lemma {:induction false} SearchLinksAt(base: Links, topic: string, level: ClassLevel, i: nat)
    requires i < |base|
    ensures SearchLinks(base, topic, level)[i] == SearchUrl(topic, level, base[i])
    decreases |base|
  {
    if i < |base| - 1 {
      var init := base[..|base| - 1];
      SearchLinksAt(init, topic, level, i);
      assert init[i] == base[i];
    }
  }

  /** `get_youtube_links_for_topic`: the search URLs of the topic's base links. */
  function YouTubeLinks(table: Dict<Links>, topic: string, level: ClassLevel): seq<string> {
    SearchLinks(LinksFor(table, topic), topic, level)
  }

  /** `get_youtube_links_for_topic`: the base links of the topic, then their search URLs. */
  method GetYouTubeLinks(table: Dict<Links>, topic: string, level: ClassLevel) returns (r: seq<string>)
    ensures r == YouTubeLinks(table, topic, level)
  {
    var links := LinksFor(table, topic);
    r := CustomizeLinks(links, topic, level);
  }

  /** The two URL-building branches of `get_youtube_links_for_topic`. */
  method CustomizeLinks(links: Links, topic: string, level: ClassLevel) returns (r: seq<string>)
    ensures r == SearchLinks(links, topic, level)
  {
    if LevelGiven(level) && links != [] {
      r := ClassSearchLinks(links, topic, level);
    } else if links != [] {
      r := PlainSearchLinks(links, topic, level);
    } else {
      r := links;
    }
  }

  /** With a class level: "topic class N channel", or "topic class N" for a
      link without a channel. */
  method ClassSearchLinks(links: Links, topic: string, level: ClassLevel) returns (customized: seq<string>)
    requires LevelGiven(level)
    ensures customized == SearchLinks(links, topic, level)
  {
    var classNum := ClassNumberText(level);
    customized := [];
    for i := 0 to |links|
      invariant customized == SearchLinks(links[..i], topic, level)
    {
      var url := ClassSearchUrl(topic, classNum, links[i]);
      assert url == SearchUrl(topic, level, links[i]);
      SearchLinksAppend(links, i, topic, level);
      customized := customized + [url];
    }
    assert links[..|links|] == links;
  }

  /** The URL of one link with a class level. */
  method ClassSearchUrl(topic: string, classNum: string, link: string) returns (url: string)
    ensures url == ClassUrl(topic, classNum, link)
  {
    var channel := ChannelName(link);
    var query;
    if channel != [] {
      query := topic + " class " + classNum + " " + channel;
    } else {
      query := topic + " class " + classNum;
    }
    url := SearchPrefix + ReplaceChar(query, ' ', '+');
  }

  /** Without a class level: "topic channel", or the topic alone. */
  method PlainSearchLinks(links: Links, topic: string, level: ClassLevel) returns (customized: seq<string>)
    requires !LevelGiven(level)
    ensures customized == SearchLinks(links, topic, level)
  {
    customized := [];
    for i := 0 to |links|
      invariant customized == SearchLinks(links[..i], topic, level)
    {
      var url := PlainSearchUrl(topic, links[i]);
      assert url == SearchUrl(topic, level, links[i]);
      SearchLinksAppend(links, i, topic, level);
      customized := customized + [url];
    }
    assert links[..|links|] == links;
  }

  /** Building the URLs one base link at a time. */
  lemma SearchLinksAppend(links: Links, i: nat, topic: string, level: ClassLevel)
    requires i < |links|
    ensures SearchLinks(links[..i + 1], topic, level)
            == SearchLinks(links[..i], topic, level) + [SearchUrl(topic, level, links[i])]
  {
    assert links[..i + 1][..i] == links[..i];
  }

  /** The URL of one link without a class level. */
  method PlainSearchUrl(topic: string, link: string) returns (url: string)
    ensures url == PlainUrl(topic, link)
  {
    var channel := ChannelName(link);
    var query;
    if channel != [] {
      query := topic + " " + channel;
    } else {
      query := topic;
    }
    url := SearchPrefix + ReplaceChar(query, ' ', '+');
  }

  /** One URL per base link, in order; each is the search prefix followed by a
      query without spaces; no base links give no URLs. */
  lemma YouTubeShape(table: Dict<Links>, topic: string, level: ClassLevel)
    ensures var r := YouTubeLinks(table, topic, level);
            var base := LinksFor(table, topic);
            && |r| == |base|
            && (r == [] <==> base == [])
            && forall i :: 0 <= i < |r| ==>
                 StartsWith(r[i], SearchPrefix) && ' ' !in r[i][|SearchPrefix|..]
  {
    var r := YouTubeLinks(table, topic, level);
    forall i | 0 <= i < |r|
      ensures StartsWith(r[i], SearchPrefix) && ' ' !in r[i][|SearchPrefix|..]
    {
      SearchLinksAt(LinksFor(table, topic), topic, level, i);
      var q := r[i][|SearchPrefix|..];
      assert forall j :: 0 <= j < |q| ==> q[j] != ' ';
    }
  }

  /** Both link tables of the program. */
  datatype Tables = Tables(websites: Dict<Links>, youtube: Dict<Links>)

  /** The result of `get_resources_for_topic`. */
  datatype TopicResources = TopicResources(websites: Links, videos: Links)

  /** `get_resources_for_topic`: the website links and YouTube search links of a topic. */
  function ResourcesForTopic(tables: Tables, topic: string, level: ClassLevel): (r: TopicResources)
    ensures r.websites == LinksFor(tables.websites, topic)
    ensures |r.videos| == |LinksFor(tables.youtube, topic)|
    ensures forall i :: 0 <= i < |r.videos| ==> StartsWith(r.videos[i], SearchPrefix)
  {
    YouTubeShape(tables.youtube, topic, level);
    TopicResources(LinksFor(tables.websites, topic), YouTubeLinks(tables.youtube, topic, level))
  }
}
