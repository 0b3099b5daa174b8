/**
 * The challenge endpoints
 * (backend/src/main/java/com/javachallenge/challenge/ChallengeController.java):
 * listing, lookup, and the download whose file name follows the bundle's folder.
 * The challenge table is a sequence of rows in insertion order.
 */
module ChallengeApi {
  import opened Wrappers
  import opened Text
  import opened Entities
  import Bundle

  function ToDtos(rows: seq<Challenge>): (r: seq<ChallengeDto>)
    ensures |r| == |rows|
    ensures forall k :: 0 <= k < |rows| ==> r[k] == ToChallengeDto(rows[k])
  {
    if |rows| == 0 then [] else [ToChallengeDto(rows[0])] + ToDtos(rows[1..])
  }

  /** `findByTopicId`: the rows of one topic, in table order. */
  function OfTopic(rows: seq<Challenge>, topic: int): (r: seq<Challenge>)
    ensures forall c :: c in r <==> c in rows && c.topicId == topic
  {
    if |rows| == 0 then []
    else (if rows[0].topicId == topic then [rows[0]] else []) + OfTopic(rows[1..], topic)
  }

  /** `list`: every challenge, or those of the topic asked for; the difficulty parameter is not used. */
  function List(rows: seq<Challenge>, topic: Option<int>, difficulty: Option<string>): (r: Response<seq<ChallengeDto>>)
    ensures r.code == 200 && r.body.Some?
    ensures topic.None? ==> r.body.value == ToDtos(rows)
    ensures topic.Some? ==> r.body.value == ToDtos(OfTopic(rows, topic.value))
  {
    var shown := if topic.Some? then OfTopic(rows, topic.value) else rows;
    Response(200, Some(ToDtos(shown)))
  }

  /** The difficulty filter changes nothing. */
  lemma DifficultyIgnored(rows: seq<Challenge>, topic: Option<int>, d1: Option<string>, d2: Option<string>)
    ensures List(rows, topic, d1) == List(rows, topic, d2)
  {
  }

  /** Every listed challenge of a topic request belongs to that topic. */
  lemma TopicListingMatches(rows: seq<Challenge>, topic: int)
    ensures forall d :: d in List(rows, Some(topic), None).body.value ==> d.topicId == topic
  {
    var shown := OfTopic(rows, topic);
    forall d | d in List(rows, Some(topic), None).body.value
      ensures d.topicId == topic
    {
      var k :| 0 <= k < |shown| && ToDtos(shown)[k] == d;
      assert shown[k] in shown;
    }
  }

  /** `get`: 404 for an unknown id, 200 with the challenge otherwise. */
  function Get(rows: seq<Challenge>, id: nat): (r: Response<ChallengeDto>)
    ensures r.code == 404 <==> forall c :: c in rows ==> c.id != id
    ensures r.code == 404 ==> r.body.None?
    ensures r.code != 404 ==> r.code == 200 && r.body.Some? && r.body.value.id == id
    ensures r.code != 404 ==> exists c :: c in rows && c.id == id && r.body.value == ToChallengeDto(c)
  {
    match FindChallenge(rows, id)
    case None => Response(404, None)
    case Some(c) => Response(200, Some(ToChallengeDto(c)))
  }

  /** The download's file name: the bundle folder followed by "-challenge.zip". */
  function FileName(theme: string): string {
    Bundle.Slug(theme) + "-challenge.zip"
  }

  /** The `Content-Disposition` value of a download. */
  function Disposition(theme: string): string {
    "attachment; filename=\"" + FileName(theme) + "\""
  }

  /** The headers and body of a download. */
  datatype Download = Download(contentType: string, disposition: string, bundle: Bundle.Outcome)

  /** `d` is the download of challenge `c`, the row with id `id`. */
  predicate Serves(rows: seq<Challenge>, id: nat, c: Challenge, d: Download, t: Bundle.Templates) {
    c in rows && c.id == id && d.disposition == Disposition(c.theme) && d.bundle == Bundle.WriteBundle(c, t)
  }

  /** `download`: "Challenge not found" for an unknown id, else the zip headers and the bundle. */
  function DownloadOf(rows: seq<Challenge>, id: nat, t: Bundle.Templates): (r: Result<Download>)
    ensures r.Err? <==> forall c :: c in rows ==> c.id != id
    ensures r.Err? ==> r.message == "Challenge not found"
    ensures r.Ok? ==> r.value.contentType == "application/zip"
    ensures r.Ok? ==> exists c :: Serves(rows, id, c, r.value, t)
  {
    match FindChallenge(rows, id)
    case None => Err("Challenge not found")
    case Some(c) =>
      var d := Download("application/zip", Disposition(c.theme), Bundle.WriteBundle(c, t));
      assert Serves(rows, id, c, d, t);
      Ok(d)
  }

  /**
   * A character RFC 7230 allows in a token; section 4.1 of RFC 6266 takes the
   * file name as a token or a quoted string.
   */
  predicate IsTokenChar(c: char) {
    || ('a' <= c <= 'z') || ('A' <= c <= 'Z') || ('0' <= c <= '9')
    || c in "!#$%&'*+-.^_`|~"
  }

  const DispositionPrefix := "attachment; filename=\""

  /**
   * Reads a disposition of the form `attachment; filename="<value>"` back,
   * refusing a value with an unescaped quote or a backslash.
   */
  function FileNameOf(v: string): (r: Option<string>)
    ensures r.Some? ==> '"' !in r.value && '\\' !in r.value
  {
    var p := DispositionPrefix;
    if |v| < |p| + 1 || v[..|p|] != p || v[|v| - 1] != '"' then None
    else
      var value := v[|p|..|v| - 1];
      if '"' in value || '\\' in value then None else Some(value)
  }

  /**
   * The disposition is well formed: read back, it gives the file name, and that
   * name is a plain token, so quoting it needs no escapes.
   */
  lemma DispositionRoundTrip(theme: string)
    ensures FileNameOf(Disposition(theme)) == Some(FileName(theme))
    ensures forall k :: 0 <= k < |FileName(theme)| ==> IsTokenChar(FileName(theme)[k])
  {
    var f := FileName(theme);
    var slug := Bundle.Slug(theme);
    var v := Disposition(theme);
    var p := DispositionPrefix;
    assert v == p + f + "\"";
    assert v[..|p|] == p;
    assert v[|p|..|v| - 1] == f;
    forall k | 0 <= k < |f|
      ensures IsTokenChar(f[k]) && f[k] != '"' && f[k] != '\\'
    {
      if k < |slug| {
        assert f[k] == slug[k];
        assert Bundle.IsSlugChar(slug[k]);
      } else {
        assert f[k] == "-challenge.zip"[k - |slug|];
      }
    }
  }

  /** The downloaded file is named after the folder the bundle unpacks into. */
  lemma FileNameMatchesFolder(c: Challenge, t: Bundle.Templates)
    requires |Bundle.WriteBundle(c, t).entries| > 0
    ensures StartsWith(Bundle.WriteBundle(c, t).entries[0].name, Bundle.Slug(c.theme) + "/")
    ensures FileName(c.theme) == Bundle.Slug(c.theme) + "-challenge.zip"
  {
  }
}
