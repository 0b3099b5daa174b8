/**
 * The downloadable starter project of a challenge
 * (backend/src/main/java/com/javachallenge/zip/ZipBundleService.java): six
 * files under a folder named after the challenge's theme. The archive encoding
 * is left out; the bundle is its list of entries, each with its declared size.
 */
module Bundle {
  import opened Wrappers
  import opened Text
  import opened Entities
  import Utf8

  // ---------------------------------------------------------------------------
  // Slugs: lower-cased text with every run of other characters turned into one '-'

  predicate IsAlnum(c: char) {
    'a' <= c <= 'z' || '0' <= c <= '9'
  }

  predicate IsSlugChar(c: char) {
    IsAlnum(c) || c == '-'
  }

  predicate SlugChars(s: string) {
    forall k :: 0 <= k < |s| ==> IsSlugChar(s[k])
  }

  predicate NoDoubleDash(s: string) {
    forall k :: 0 <= k < |s| - 1 ==> !(s[k] == '-' && s[k + 1] == '-')
  }

  /**
   * `replaceAll("[^a-z0-9]+", "-")`, with `inRun` telling whether the previous
   * character already started a replaced run.
   */
  function Squash(s: string, inRun: bool): (r: string)
    ensures SlugChars(r) && NoDoubleDash(r)
    ensures inRun ==> |r| == 0 || r[0] != '-'
    ensures !inRun && |s| > 0 ==> |r| > 0
  {
    if |s| == 0 then ""
    else if IsAlnum(s[0]) then [s[0]] + Squash(s[1..], false)
    else if inRun then Squash(s[1..], true)
    else "-" + Squash(s[1..], true)
  }

  /** The folder and file-name stem derived from a theme (ASCII case folding). */
  function Slug(theme: string): (r: string)
    ensures SlugChars(r) && NoDoubleDash(r)
    ensures r == "" <==> theme == ""
  {
    Squash(Lower(theme), false)
  }

  /** The letters and digits of a string, in order. */
  function Alnums(s: string): string {
    if |s| == 0 then "" else (if IsAlnum(s[0]) then [s[0]] else "") + Alnums(s[1..])
  }

  /** Squashing keeps every letter and digit, in order, and drops no other. */
  lemma {:induction false} SquashKeepsAlnums(s: string, inRun: bool)
    ensures Alnums(Squash(s, inRun)) == Alnums(s)
  {
    if |s| > 0 {
      var rest := s[1..];
      if IsAlnum(s[0]) {
        SquashKeepsAlnums(rest, false);
        assert ([s[0]] + Squash(rest, false))[1..] == Squash(rest, false);
      } else if inRun {
        SquashKeepsAlnums(rest, true);
      } else {
        SquashKeepsAlnums(rest, true);
        assert ("-" + Squash(rest, true))[1..] == Squash(rest, true);
      }
    }
  }

  /** The slug keeps the theme's letters and digits, lower-cased, in order. */
  lemma SlugKeepsAlnums(theme: string)
    ensures Alnums(Slug(theme)) == Alnums(Lower(theme))
  {
    SquashKeepsAlnums(Lower(theme), false);
  }

  lemma {:induction false} SquashFixesSlugs(t: string, inRun: bool)
    requires SlugChars(t) && NoDoubleDash(t)
    requires inRun ==> |t| == 0 || t[0] != '-'
    ensures Squash(t, inRun) == t
  {
    if |t| > 0 {
      SquashFixesSlugs(t[1..], t[0] == '-');
      assert t == [t[0]] + t[1..];
    }
  }

  /** A slug is its own slug. */
  lemma SlugIdempotent(theme: string)
    ensures Slug(Slug(theme)) == Slug(theme)
  {
    var t := Slug(theme);
    assert Lower(t) == t;
    SquashFixesSlugs(t, false);
  }

  // ---------------------------------------------------------------------------
  // Entry contents

  /**
   * The service's fixed texts: the pom around its artifact id, and the
   * Checkstyle configuration. They are a parameter of the bundle so that proofs
   * do not carry their characters; `ServiceTemplates` holds the ones shipped.
   */
  datatype Templates = Templates(pomPreamble: string, pomRest: string, checkstyleXml: string)

  const ServiceTemplates: Templates := Templates(
    "<?xml version=\"1.0\" encoding=\"UTF-8\"?>\n"
      + "<project xmlns=\"http://maven.apache.org/POM/4.0.0\"\n"
      + "         xmlns:xsi=\"http://www.w3.org/2001/XMLSchema-instance\"\n"
      + "         xsi:schemaLocation=\"http://maven.apache.org/POM/4.0.0 http://maven.apache.org/xsd/maven-4.0.0.xsd\">\n"
      + "  <modelVersion>4.0.0</modelVersion>\n"
      + "  <groupId>com.challenge</groupId>\n"
      + "  ",
    "\n"
      + "  <version>1.0-SNAPSHOT</version>\n"
      + "  <properties>\n"
      + "    <maven.compiler.source>21</maven.compiler.source>\n"
      + "    <maven.compiler.target>21</maven.compiler.target>\n"
      + "    <junit.version>5.10.0</junit.version>\n"
      + "  </properties>\n"
      + "  <dependencies>\n"
      + "    <dependency>\n"
      + "      <groupId>org.junit.jupiter</groupId>\n"
      + "      <artifactId>junit-jupiter</artifactId>\n"
      + "      <version>${junit.version}</version>\n"
      + "      <scope>test</scope>\n"
      + "    </dependency>\n"
      + "  </dependencies>\n"
      + "  <build>\n"
      + "    <plugins>\n"
      + "      <plugin>\n"
      + "        <groupId>org.apache.maven.plugins</groupId>\n"
      + "        <artifactId>maven-surefire-plugin</artifactId>\n"
      + "        <version>3.2.5</version>\n"
      + "      </plugin>\n"
      + "      <plugin>\n"
      + "        <groupId>org.checkstyle</groupId>\n"
      + "        <artifactId>checkstyle-maven-plugin</artifactId>\n"
      + "        <version>3.3.1</version>\n"
      + "        <configuration>\n"
      + "          <configLocation>checkstyle.xml</configLocation>\n"
      + "          <failsOnError>true</failsOnError>\n"
      + "        </configuration>\n"
      + "      </plugin>\n"
      + "    </plugins>\n"
      + "  </build>\n"
      + "</project>\n",
    "<?xml version=\"1.0\"?>\n"
      + "<!DOCTYPE module PUBLIC\n"
      + "    \"-//Checkstyle//DTD Checkstyle Configuration 1.3//EN\"\n"
      + "    \"https://checkstyle.org/dtds/configuration_1_3.dtd\">\n"
      + "<module name=\"Checker\">\n"
      + "  <module name=\"TreeWalker\">\n"
      + "    <module name=\"IllegalType\">\n"
      + "      <property name=\"illegalClassNames\" value=\"java.util.Hashtable, java.util.Vector\"/>\n"
      + "    </module>\n"
      + "    <module name=\"GenericWhitespace\"/>\n"
      + "    <module name=\"MethodTypeParameterName\"/>\n"
      + "  </module>\n"
      + "</module>\n")

  /** The Maven build file, with `artifactId` as the artifact id. */
  function Pom(t: Templates, artifactId: string): string {
    t.pomPreamble + "<artifactId>" + artifactId + "</artifactId>" + t.pomRest
  }

  /** The pom names the slug as its artifact. */
  lemma PomNamesArtifact(t: Templates, artifactId: string)
    ensures Includes(Pom(t, artifactId), "<artifactId>" + artifactId + "</artifactId>")
  {
    var p := Pom(t, artifactId);
    var a := "<artifactId>" + artifactId + "</artifactId>";
    var j := |t.pomPreamble|;
    assert p == t.pomPreamble + a + t.pomRest;
    assert p[j..j + |a|] == a;
    assert OccursAt(p, a, j);
    IncludesIff(p, a);
  }

  const ReadmeTail: string :=
    "\n\n## Getting Started\n\nSee `Requirements.md` for the full refactoring checklist.\n\n"
    + "Run tests: `mvn test`\nRun Checkstyle: `mvn checkstyle:check`\n"

  /** README.md: a heading with the title, the story (the text "null" when there is none), fixed instructions. */
  function Readme(c: Challenge): (r: string)
    ensures EndsWith(r, ReadmeTail)
  {
    ReadmeWith(c.title, JavaStr(c.story), ReadmeTail)
  }

  /** The README layout with the instructions `tail`. */
  function ReadmeWith(title: string, story: string, tail: string): (r: string)
    ensures EndsWith(r, tail)
  {
    var r := "# " + title + "\n\n" + story + tail;
    assert r[|r| - |tail|..] == tail;
    r
  }

  /** The README's first line is the title as a Markdown heading. */
  lemma ReadmeOpensWithTitle(c: Challenge)
    requires '\n' !in c.title
    ensures SplitLines(Readme(c))[0] == "# " + c.title
  {
    HeadingFirst(c.title, JavaStr(c.story), ReadmeTail);
  }

  lemma HeadingFirst(title: string, story: string, tail: string)
    requires '\n' !in title
    ensures SplitLines(ReadmeWith(title, story, tail))[0] == "# " + title
  {
    var r := ReadmeWith(title, story, tail);
    assert '\n' !in "# ";
    assert r == ("# " + title) + "\n" + ("\n" + story + tail);
    SplitFirstLine("# " + title, "\n" + story + tail);
  }

  // ---------------------------------------------------------------------------
  // The bundle

  /** The file names inside the bundle folder, in writing order. */
  const EntryNames: seq<string> := [
    "pom.xml",
    "README.md",
    "Requirements.md",
    "src/main/java/com/challenge/BadCode.java",
    "src/test/java/com/challenge/ChallengeTest.java",
    "checkstyle.xml"
  ]

  /** An archive entry: its name, its text and the size declared for it. */
  datatype Entry = Entry(name: string, content: string, size: nat)

  /** `addEntry`: the declared size is the content's UTF-8 byte count. */
  function AddEntry(name: string, content: string): (e: Entry)
    ensures e.name == name && e.content == content
    ensures Utf8.Decode(Utf8.Encode(content)) == Some(content) && e.size == |Utf8.Encode(content)|
  {
    Utf8.DecodeEncode(content);
    Entry(name, content, |Utf8.Encode(content)|)
  }

  /** The entries written, and whether writing stopped on a missing (null) content. */
  datatype Outcome = Outcome(entries: seq<Entry>, failed: bool)

  /** Writes entry after entry, stopping at the first missing content. */
  function WriteAll(folder: string, names: seq<string>, contents: seq<Option<string>>): (r: Outcome)
    requires |names| == |contents|
    ensures !r.failed <==> forall k :: 0 <= k < |contents| ==> contents[k].Some?
    ensures |r.entries| <= |contents|
    ensures !r.failed ==> |r.entries| == |contents|
    ensures r.failed ==> |r.entries| < |contents| && contents[|r.entries|].None?
    ensures forall k :: 0 <= k < |r.entries| ==>
      contents[k].Some? && r.entries[k] == AddEntry(folder + "/" + names[k], contents[k].value)
  {
    if |names| == 0 then Outcome([], false)
    else match contents[0]
      case None => Outcome([], true)
      case Some(text) =>
        var rest := WriteAll(folder, names[1..], contents[1..]);
        Outcome([AddEntry(folder + "/" + names[0], text)] + rest.entries, rest.failed)
  }

  /** What each of the six files holds; a null column of the challenge is a missing content. */
  function Contents(c: Challenge, t: Templates): (r: seq<Option<string>>)
    ensures |r| == 6
    ensures r[0] == Some(Pom(t, Slug(c.theme))) && r[1] == Some(Readme(c))
    ensures r[2] == c.requirementsMd && r[3] == c.legacyCode && r[4] == c.testSuiteCode
    ensures r[5] == Some(t.checkstyleXml)
  {
    [Some(Pom(t, Slug(c.theme))), Some(Readme(c)), c.requirementsMd, c.legacyCode, c.testSuiteCode,
     Some(t.checkstyleXml)]
  }

  /** Six contents whose first two and last are present: writing stops only at the middle three. */
  function WriteSix(folder: string, contents: seq<Option<string>>): (r: Outcome)
    requires |contents| == 6 && contents[0].Some? && contents[1].Some? && contents[5].Some?
    ensures !r.failed <==> contents[2].Some? && contents[3].Some? && contents[4].Some?
    ensures !r.failed ==> |r.entries| == 6
    ensures r.failed ==> 2 <= |r.entries| <= 4
    ensures forall k :: 0 <= k < |r.entries| ==>
      contents[k].Some? && r.entries[k] == AddEntry(folder + "/" + EntryNames[k], contents[k].value)
  {
    SixPresent(contents);
    WriteAll(folder, EntryNames, contents)
  }

  lemma SixPresent(contents: seq<Option<string>>)
    requires |contents| == 6
    ensures (forall k :: 0 <= k < |contents| ==> contents[k].Some?)
        <==> contents[0].Some? && contents[1].Some? && contents[2].Some? && contents[3].Some?
             && contents[4].Some? && contents[5].Some?
  {
    if contents[0].Some? && contents[1].Some? && contents[2].Some? && contents[3].Some?
       && contents[4].Some? && contents[5].Some? {
      forall k | 0 <= k < |contents| ensures contents[k].Some? {
        assert k == 0 || k == 1 || k == 2 || k == 3 || k == 4 || k == 5;
      }
    }
  }

  /** `writeBundle`, with the service's fixed texts `t`. */
  function WriteBundle(c: Challenge, t: Templates): (r: Outcome)
    ensures !r.failed <==> c.requirementsMd.Some? && c.legacyCode.Some? && c.testSuiteCode.Some?
    ensures !r.failed ==> |r.entries| == 6
    ensures r.failed ==> 2 <= |r.entries| <= 4
    ensures forall k :: 0 <= k < |r.entries| ==>
      r.entries[k].name == Slug(c.theme) + "/" + EntryNames[k]
      && r.entries[k].size == |Utf8.Encode(r.entries[k].content)|
  {
    WriteSix(Slug(c.theme), Contents(c, t))
  }

  /** A complete bundle carries the challenge's own texts verbatim, and the fixed build files. */
  lemma BundleContents(c: Challenge, t: Templates)
    requires !WriteBundle(c, t).failed
    ensures WriteBundle(c, t).entries[0].content == Pom(t, Slug(c.theme))
    ensures WriteBundle(c, t).entries[1].content == Readme(c)
    ensures WriteBundle(c, t).entries[2].content == c.requirementsMd.value
    ensures WriteBundle(c, t).entries[3].content == c.legacyCode.value
    ensures WriteBundle(c, t).entries[4].content == c.testSuiteCode.value
    ensures WriteBundle(c, t).entries[5].content == t.checkstyleXml
  {
  }

  /** The checkstyle rules stored with a challenge do not change its bundle. */
  lemma BundleIgnoresCheckstyleRules(c: Challenge, t: Templates, rules: Option<string>)
    ensures WriteBundle(c.(checkstyleRulesJson := rules), t) == WriteBundle(c, t)
  {
  }
}
