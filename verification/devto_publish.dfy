/** Publishing a Markdown post to dev.to: the post is split on its first two
    `---` delimiters, four fields are read from the front matter with
    line-anchored regular expressions, and an article payload is sent. */
module DevtoPublish {
  import opened Wrappers
  import opened Text
  import Http

  const Delimiter := "---"
  const InvalidFormatMessage := "Invalid post format: missing delimiters (---)"
  const StatusMessage := "HTTP response code is not 200."
  const MissingPathMessage := "JSON key path not found."
  const FailedMessage := "HTTP request failed."
  const UnreachableMessage := "HTTP request could not be completed."
  const ArticlesUrl := "https://dev.to/api/articles"
  const SiteUrl := "https://dev.to"

  // ---------------------------------------------------------------------
  // Splitting the post

  /** The three pieces of `text.split("---", 2)`. */
  datatype Sections = Sections(preamble: string, frontmatter: string, rest: string)

  /** The text holds two delimiters that do not overlap. */
  ghost predicate TwoDelimiters(text: string) {
    exists i, j :: OccursAt(text, Delimiter, i) && OccursAt(text, Delimiter, j) && i + |Delimiter| <= j
  }

  /** `i` and `j` are where a left-to-right, non-overlapping scan finds the
      first and second delimiter. */
  ghost predicate FirstTwoDelimiters(text: string, i: int, j: int) {
    && OccursAt(text, Delimiter, i)
    && OccursAt(text, Delimiter, j)
    && i + |Delimiter| <= j
    && (forall k :: 0 <= k < i ==> !OccursAt(text, Delimiter, k))
    && (forall k :: i + |Delimiter| <= k < j ==> !OccursAt(text, Delimiter, k))
  }

  /** `text.split("---", 2)` when it yields three parts, else None. */
  function SplitPost(text: string): (r: Option<Sections>)
    ensures r.Some? <==> TwoDelimiters(text)
    ensures r.Some? ==> exists i, j :: (FirstTwoDelimiters(text, i, j)
      && r.value == Sections(text[..i], text[i + |Delimiter|..j], text[j + |Delimiter|..]))
  {
    match Find(text, Delimiter, 0)
    case None => None
    case Some(i) =>
      match Find(text, Delimiter, i + |Delimiter|)
      case None =>
        assert !TwoDelimiters(text) by {
          forall a, b ensures !(OccursAt(text, Delimiter, a) && OccursAt(text, Delimiter, b) && a + |Delimiter| <= b) {
            if OccursAt(text, Delimiter, a) { assert i <= a; }
          }
        }
        None
      case Some(j) =>
        assert FirstTwoDelimiters(text, i, j);
        Some(Sections(text[..i], text[i + |Delimiter|..j], text[j + |Delimiter|..]))
  }

  // ---------------------------------------------------------------------
  // Matching one line-anchored pattern (Python `re`, MULTILINE)

  /** `^` under MULTILINE matches at the start of the text and after each '\n'. */
  predicate LineStart(s: string, p: int) {
    0 <= p <= |s| && (p == 0 || s[p - 1] == '\n')
  }

  /** Where the greedy `\s*` starting at `i` stops. */
  function SkipSpace(s: string, i: nat): (e: nat)
    requires i <= |s|
    ensures i <= e <= |s|
    ensures forall k :: i <= k < e ==> IsSpace(s[k])
    ensures e < |s| ==> !IsSpace(s[e])
    decreases |s| - i
  {
    if i < |s| && IsSpace(s[i]) then SkipSpace(s, i + 1) else i
  }

  /** Where the greedy `.+` starting at `i` stops: the next '\n' or the end. */
  function LineEnd(s: string, i: nat): (e: nat)
    requires i <= |s|
    ensures i <= e <= |s|
    ensures forall k :: i <= k < e ==> s[k] != '\n'
    ensures e < |s| ==> s[e] == '\n'
    decreases |s| - i
  {
    if i < |s| && s[i] != '\n' then LineEnd(s, i + 1) else i
  }

  /** The last position in [lo, hi) not holding '\n'. */
  function LastNonNewline(s: string, lo: nat, hi: nat): (r: Option<nat>)
    requires lo <= hi <= |s|
    ensures r.Some? ==> lo <= r.value < hi && s[r.value] != '\n'
    ensures forall k :: lo <= k < hi && (r.None? || r.value < k) ==> s[k] == '\n'
    decreases hi - lo
  {
    if lo == hi then None
    else if s[hi - 1] != '\n' then Some(hi - 1)
    else LastNonNewline(s, lo, hi - 1)
  }

  /** `head` at line start `p` followed by whitespace up to `a`, then the
      capture `s[a..b]`: at least one character, no '\n', and `$` holds at `b`.
      These are the ways `^key:\s*(.+)$` can match at `p`. */
  ghost predicate FieldCandidate(s: string, head: string, p: int, a: int, b: int) {
    && 0 <= p && p + |head| <= a < b <= |s|
    && s[p..p + |head|] == head
    && (forall k :: p + |head| <= k < a ==> IsSpace(s[k]))
    && (forall k :: a <= k < b ==> s[k] != '\n')
    && (b == |s| || s[b] == '\n')
  }

  /** Capture group 1 of `^key:\s*(.+)$` attempted at position `p`. The
      backtracking engine keeps the longest `\s*` that still lets `.+` match,
      so when the whitespace runs to the end of the text the capture is the
      last non-newline whitespace character. */
  function FieldGroupAt(s: string, key: string, p: nat): (r: Option<string>)
    ensures r.Some? ==> exists a, b :: (FieldCandidate(s, key + ":", p, a, b) && r.value == s[a..b]
      && (forall a', b' :: FieldCandidate(s, key + ":", p, a', b') ==> a' <= a))
    ensures r.None? ==> forall a, b :: !FieldCandidate(s, key + ":", p, a, b)
  {
    var head := key + ":";
    if p > |s| || !StartsWith(s[p..], head) then
      assert forall a, b :: !FieldCandidate(s, head, p, a, b) by {
        forall a, b ensures !FieldCandidate(s, head, p, a, b) {
          if p + |head| <= |s| { assert s[p..][..|head|] == s[p..p + |head|]; }
        }
      }
      None
    else
      assert s[p..p + |head|] == head by { assert s[p..][..|head|] == s[p..p + |head|]; }
      var start := p + |head|;
      var e := SkipSpace(s, start);
      if e < |s| then
        var b := LineEnd(s, e);
        assert FieldCandidate(s, head, p, e, b);
        // A longer `\s*` would have to swallow the non-space at `e`.
        assert forall a', b' :: FieldCandidate(s, head, p, a', b') ==> a' <= e by {
          forall a', b' ensures FieldCandidate(s, head, p, a', b') ==> a' <= e {
            if e < a' { assert !IsSpace(s[e]); }
          }
        }
        Some(s[e..b])
      else
        match LastNonNewline(s, start, e)
        case None =>
          // Only newlines follow the key, and `.+` cannot start on one.
          assert forall a, b :: !FieldCandidate(s, head, p, a, b) by {
            forall a, b ensures !FieldCandidate(s, head, p, a, b) {
              if start <= a < e { assert s[a] == '\n'; }
            }
          }
          None
        case Some(q) =>
          var b := LineEnd(s, q);
          assert FieldCandidate(s, head, p, q, b);
          assert forall a', b' :: FieldCandidate(s, head, p, a', b') ==> a' <= q by {
            forall a', b' ensures FieldCandidate(s, head, p, a', b') ==> a' <= q {
              if q < a' < e { assert s[a'] == '\n'; }
            }
          }
          Some(s[q..b])
  }

  /** `[` after `tags:` and whitespace at `a`, then the lazy capture
      `s[a + 1..j]` of at least one non-newline character, closed by `]` at `j`.
      These are the ways `^tags:\s*\[(.+?)\]` can match at `p`. */
  ghost predicate TagsCandidate(s: string, p: int, a: int, j: int) {
    && 0 <= p && p + |TagsHead| <= a && a + 1 < j < |s|
    && s[p..p + |TagsHead|] == TagsHead
    && (forall k :: p + |TagsHead| <= k < a ==> IsSpace(s[k]))
    && s[a] == '['
    && (forall k :: a < k < j ==> s[k] != '\n')
    && s[j] == ']'
  }

  const TagsHead := "tags:"

  /** First index at or after `i` holding ']' or '\n', or the end. */
  function CloseOrNewline(s: string, i: nat): (j: nat)
    requires i <= |s|
    ensures i <= j <= |s|
    ensures forall k :: i <= k < j ==> s[k] != ']' && s[k] != '\n'
    ensures j < |s| ==> s[j] == ']' || s[j] == '\n'
    decreases |s| - i
  {
    if i < |s| && s[i] != ']' && s[i] != '\n' then CloseOrNewline(s, i + 1) else i
  }

  /** Capture group 1 of `^tags:\s*\[(.+?)\]` attempted at position `p`: the
      bracket must follow the whitespace, and the lazy `.+?` takes at least
      one character (which may itself be ']') before the first closing ']'. */
  function TagsGroupAt(s: string, p: nat): (r: Option<string>)
    ensures r.Some? ==> exists a, j :: (TagsCandidate(s, p, a, j) && r.value == s[a + 1..j]
      && (forall a', j' :: TagsCandidate(s, p, a', j') ==> a' == a && j <= j'))
    ensures r.None? ==> forall a, j :: !TagsCandidate(s, p, a, j)
  {
    if p > |s| || !StartsWith(s[p..], TagsHead) then
      assert forall a, j :: !TagsCandidate(s, p, a, j) by {
        forall a, j ensures !TagsCandidate(s, p, a, j) {
          if p + |TagsHead| <= |s| { assert s[p..][..|TagsHead|] == s[p..p + |TagsHead|]; }
        }
      }
      None
    else
      assert s[p..p + |TagsHead|] == TagsHead by { assert s[p..][..|TagsHead|] == s[p..p + |TagsHead|]; }
      var start := p + |TagsHead|;
      var a := SkipSpace(s, start);
      // Any candidate's bracket is the first non-space character.
      assert forall a', j' :: TagsCandidate(s, p, a', j') ==> a' == a by {
        forall a', j' ensures TagsCandidate(s, p, a', j') ==> a' == a {
          if start <= a' < a { assert IsSpace(s[a']); }
          if a < a' < |s| { assert !IsSpace(s[a]); }
        }
      }
      if a + 1 < |s| && s[a] == '[' && s[a + 1] != '\n' then
        var j := CloseOrNewline(s, a + 2);
        if j < |s| && s[j] == ']' then
          assert TagsCandidate(s, p, a, j);
          Some(s[a + 1..j])
        else
          // The first ']' or '\n' after the capture's first character is a '\n'.
          assert forall a', j' :: !TagsCandidate(s, p, a', j') by {
            forall a', j' ensures !TagsCandidate(s, p, a', j') {
              if a + 2 <= j' < j { assert s[j'] != ']'; }
              if j < |s| { assert s[j] == '\n'; }
            }
          }
          None
      else
        None
  }

  /** `re.search` with a `^`-anchored pattern under MULTILINE: the leftmost
      line start at or after `p` where `attempt` matches, and its capture. */
  function SearchLines(s: string, attempt: nat -> Option<string>, p: nat): (r: Option<(nat, string)>)
    ensures r.Some? ==> p <= r.value.0 && LineStart(s, r.value.0) && attempt(r.value.0) == Some(r.value.1)
    ensures forall k :: p <= k && LineStart(s, k) && (r.None? || k < r.value.0) ==> attempt(k).None?
    decreases |s| - p + 1
  {
    if p > |s| then None
    else if LineStart(s, p) && attempt(p).Some? then Some((p, attempt(p).value))
    else SearchLines(s, attempt, p + 1)
  }

  /** The attempts `re.search` makes at each position, one per pattern. */
  function FieldAttempt(fm: string, key: string): nat -> Option<string> {
    (p: nat) => FieldGroupAt(fm, key, p)
  }

  function TagsAttempt(fm: string): nat -> Option<string> {
    (p: nat) => TagsGroupAt(fm, p)
  }

  /** `^key:\s*(.+)$` can match at `p`, which must be a line start. */
  ghost predicate FieldMatchesAt(fm: string, key: string, p: int) {
    LineStart(fm, p) && exists a, b :: FieldCandidate(fm, key + ":", p, a, b)
  }

  /** `p` is the first line where `^key:\s*(.+)$` matches. */
  ghost predicate FirstFieldLine(fm: string, key: string, p: int) {
    FieldMatchesAt(fm, key, p) && forall q :: 0 <= q < p ==> !FieldMatchesAt(fm, key, q)
  }

  /** `re.search(r"^key:\s*(.+)$", fm, re.MULTILINE).group(1).strip()`, or
      None when nothing matches. */
  function FieldValue(fm: string, key: string): (r: Option<string>)
    ensures r.None? <==> forall p :: !FieldMatchesAt(fm, key, p)
    ensures r.Some? ==> exists p :: (FirstFieldLine(fm, key, p) && FieldGroupAt(fm, key, p).Some?
      && r.value == Strip(FieldGroupAt(fm, key, p).value))
  {
    match SearchLines(fm, FieldAttempt(fm, key), 0)
    case None => None
    case Some((p, g)) =>
      assert FirstFieldLine(fm, key, p);
      Some(Strip(g))
  }

  /** `^tags:\s*\[(.+?)\]` can match at `p`, which must be a line start. */
  ghost predicate TagsMatchAt(fm: string, p: int) {
    LineStart(fm, p) && exists a, j :: TagsCandidate(fm, p, a, j)
  }

  /** The `tags` list: the capture of `^tags:\s*\[(.+?)\]` on the first line
      where it matches, split on every comma and each piece stripped, with
      nothing filtered; `[]` when no line matches. */
  function TagsValue(fm: string): (r: seq<string>)
    ensures |r| == 0 <==> forall p :: !TagsMatchAt(fm, p)
    ensures |r| > 0 ==> exists p :: (TagsMatchAt(fm, p) && (forall q :: 0 <= q < p ==> !TagsMatchAt(fm, q))
      && TagsGroupAt(fm, p).Some?
      && |r| == multiset(TagsGroupAt(fm, p).value)[','] + 1
      && forall k :: 0 <= k < |r| ==> r[k] == Strip(SplitOn(TagsGroupAt(fm, p).value, ',')[k]))
  {
    match SearchLines(fm, TagsAttempt(fm), 0)
    case None =>
      assert forall p :: !TagsMatchAt(fm, p) by {
        forall p ensures !TagsMatchAt(fm, p) {
          if LineStart(fm, p) { assert TagsGroupAt(fm, p).None?; }
        }
      }
      []
    case Some((p, g)) =>
      var parts := SplitOn(g, ',');
      var r := StripAll(parts);
      assert TagsMatchAt(fm, p);
      assert TagsGroupAt(fm, p) == Some(g);
      assert |r| == multiset(g)[','] + 1;
      r
  }

  function StripAll(pieces: seq<string>): (r: seq<string>)
    ensures |r| == |pieces|
    ensures forall k :: 0 <= k < |r| ==> r[k] == Strip(pieces[k])
  {
    seq(|pieces|, k requires 0 <= k < |pieces| => Strip(pieces[k]))
  }

  // ---------------------------------------------------------------------
  // The post and the payload

  /** The parsed post, as the script's `result` dictionary holds it. */
  datatype Post = Post(
    title: Option<string>,
    description: Option<string>,
    date: Option<string>,
    tags: seq<string>,
    content: string,
    publish: string)

  /** The `article` object sent to the API. */
  datatype Article = Article(title: Option<string>, bodyMarkdown: string, published: string, tags: seq<string>)

  /** The `--publish` flag as the string the payload carries. */
  function PublishFlag(publish: bool): (r: string)
    ensures r == "true" || r == "false"
    ensures r == "true" <==> publish
  {
    if publish then "true" else "false"
  }

  /** Parsing the text of a post. */
  function ParsePost(text: string, publish: bool): (r: Result<Post, string>)
    ensures r.Err? <==> !TwoDelimiters(text)
    ensures r.Err? ==> r.error == InvalidFormatMessage
    ensures r.Ok? ==> var sections := SplitPost(text).value; var fm := Strip(sections.frontmatter);
      && r.value.content == Strip(sections.rest)
      && r.value.title == FieldValue(fm, "title")
      && r.value.description == FieldValue(fm, "description")
      && r.value.date == FieldValue(fm, "date")
      && r.value.tags == TagsValue(fm)
    ensures r.Ok? ==> r.value.publish == PublishFlag(publish)
  {
    match SplitPost(text)
    case None => Err(InvalidFormatMessage)
    case Some(sections) =>
      var fm := Strip(sections.frontmatter);
      Ok(Post(
        FieldValue(fm, "title"),
        FieldValue(fm, "description"),
        FieldValue(fm, "date"),
        TagsValue(fm),
        Strip(sections.rest),
        PublishFlag(publish)))
  }

  /** The payload: title, body, publish string and tags; the description and
      date are parsed but never sent. */
  function ArticleOf(post: Post): (a: Article)
    ensures a.title == post.title && a.bodyMarkdown == post.content
    ensures a.published == post.publish && a.tags == post.tags
  {
    Article(post.title, post.content, post.publish, post.tags)
  }

  /** The description and the date are parsed but never sent: posts that
      differ only there give the same payload. */
  lemma PayloadIgnoresDescriptionAndDate(p: Post, q: Post)
    requires p.title == q.title && p.content == q.content
    requires p.publish == q.publish && p.tags == q.tags
    ensures ArticleOf(p) == ArticleOf(q)
  {
  }

  // ---------------------------------------------------------------------
  // The whole script

  /** What `path.exists()` and `f.read()` find. */
  datatype PostFile = Missing | Present(text: string)

  /** The JSON of the API's answer: `path` is None when it has no "path" key. */
  datatype Body = Body(path: Option<string>)

  /** The API's answer to the POST, or no answer (`requests` raised an
      `OSError`). `body` is None when the answer is not JSON, which makes
      `response.json()` raise an `OSError` too. */
  datatype Reply = Unreachable | Answered(status: int, body: Option<Body>)

  /** The POST: the articles endpoint, the `api-key` header and the payload. */
  datatype Request = Request(url: string, apiKey: string, article: Article)

  /** What the script sends, and the URL it announces or the message it exits with. */
  datatype PublishRun = PublishRun(sent: Option<Request>, outcome: Result<string, string>)

  function Publish(fileName: string, apiToken: string, file: PostFile, publish: bool, reply: Reply): (run: PublishRun)
    ensures file.Missing? ==> run == PublishRun(None, Err("File not found: " + fileName))
    ensures file.Present? ==> (run.sent.Some? <==> ParsePost(file.text, publish).Ok?)
    ensures file.Present? && ParsePost(file.text, publish).Err? ==> run.outcome == Err(InvalidFormatMessage)
    ensures run.sent.Some? ==>
      run.sent.value == Request(ArticlesUrl, apiToken, ArticleOf(ParsePost(file.text, publish).value))
    ensures run.outcome.Ok? <==>
      && run.sent.Some? && reply.Answered? && 200 <= reply.status
      && reply.body.Some? && reply.body.value.path.Some? && reply.body.value.path.value != ""
    ensures run.outcome.Ok? ==> run.outcome.value == SiteUrl + reply.body.value.path.value
    ensures run.sent.Some? && reply.Unreachable? ==> run.outcome == Err(UnreachableMessage)
    ensures run.sent.Some? && reply.Answered? ==>
      && (reply.status < 200 ==> run.outcome == Err(StatusMessage))
      && (reply.status >= 200 && reply.body.None? ==> run.outcome == Err(UnreachableMessage))
      && (reply.status >= 200 && reply.body == Some(Body(None)) ==> run.outcome == Err(MissingPathMessage))
      && (reply.status >= 200 && reply.body == Some(Body(Some(""))) ==> run.outcome == Err(FailedMessage))
  {
    match file
    case Missing => PublishRun(None, Err("File not found: " + fileName))
    case Present(text) =>
      match ParsePost(text, publish)
      case Err(e) => PublishRun(None, Err(e))
      case Ok(post) =>
        var request := Request(ArticlesUrl, apiToken, ArticleOf(post));
        var outcome :=
          match reply
          case Unreachable => Err(UnreachableMessage)
          case Answered(status, body) =>
            if Http.RejectsStatus(status) then Err(StatusMessage)
            else if body.None? then Err(UnreachableMessage)
            else if body.value.path.None? then Err(MissingPathMessage)
            else if body.value.path.value == "" then Err(FailedMessage)
            else Ok(SiteUrl + body.value.path.value);
        PublishRun(Some(request), outcome)
  }

  // ---------------------------------------------------------------------
  // Properties

  /** The delimiters a left-to-right scan finds are determined by the text. */
  lemma FirstTwoDelimitersUnique(text: string, i: int, j: int, i': int, j': int)
    requires FirstTwoDelimiters(text, i, j) && FirstTwoDelimiters(text, i', j')
    ensures i == i' && j == j'
  {
    assert i <= i' && i' <= i;
    assert j <= j' && j' <= j;
  }

  /** A post written as `---`, front matter, `---`, body splits back into
      exactly that front matter and body, even when the body holds further
      `---` lines: only the first two delimiters cut. */
  lemma {:induction false} ContentKeepsDelimiters(fm: string, body: string, publish: bool)
    requires forall k :: 0 <= k < |fm| ==> !OccursAt(fm + Delimiter, Delimiter, k)
    ensures ParsePost(Delimiter + fm + Delimiter + body, publish) == Ok(Post(
      FieldValue(Strip(fm), "title"),
      FieldValue(Strip(fm), "description"),
      FieldValue(Strip(fm), "date"),
      TagsValue(Strip(fm)),
      Strip(body),
      PublishFlag(publish)))
  {
    var text := Delimiter + fm + Delimiter + body;
    var j := |Delimiter| + |fm|;
    assert text[..|Delimiter|] == Delimiter;
    assert text[j..j + |Delimiter|] == Delimiter;
    assert text[|Delimiter|..j] == fm;
    assert text[j + |Delimiter|..] == body;
    assert text[|Delimiter|..j + |Delimiter|] == fm + Delimiter;
    forall k | |Delimiter| <= k < j
      ensures !OccursAt(text, Delimiter, k)
    {
      var w := fm + Delimiter;
      assert text[k..k + |Delimiter|] == w[k - |Delimiter|..k - |Delimiter| + |Delimiter|];
      assert !OccursAt(w, Delimiter, k - |Delimiter|);
    }
    assert FirstTwoDelimiters(text, 0, j);
    var sections := SplitPost(text).value;
    var i', j' :| FirstTwoDelimiters(text, i', j')
      && sections == Sections(text[..i'], text[i' + |Delimiter|..j'], text[j' + |Delimiter|..]);
    FirstTwoDelimitersUnique(text, 0, j, i', j');
  }

  /** A field is only ever read from a line that begins with the key and a
      colon: a line such as `subtitle: ...` never yields `title`. */
  lemma FieldNeedsKeyAtLineStart(fm: string, key: string)
    requires forall p :: LineStart(fm, p) ==> !StartsWith(fm[p..], key + ":")
    ensures FieldValue(fm, key) == None
  {
    forall p ensures !FieldMatchesAt(fm, key, p) {
      var head := key + ":";
      if LineStart(fm, p) && p + |head| <= |fm| {
        assert fm[p..][..|head|] == fm[p..p + |head|];
      }
    }
  }

  lemma SubtitleIsNotTitle()
    ensures FieldValue("subtitle: Intro", "title") == None
  {
    var fm := "subtitle: Intro";
    forall p | LineStart(fm, p) ensures !StartsWith(fm[p..], "title:") {
      assert p == 0;
      assert fm[..6] != "title:" by { assert fm[0] != 't'; }
    }
    FieldNeedsKeyAtLineStart(fm, "title");
  }

  /** On the first line where it matches, a line `key:`, whitespace, then a
      value that starts with a non-space character and runs to the end of the
      line yields that value, stripped. */
  lemma {:induction false} FieldFromLine(fm: string, key: string, p: nat, ws: string, v: string)
    requires LineStart(fm, p)
    requires forall q :: 0 <= q < p ==> !FieldMatchesAt(fm, key, q)
    requires StartsWith(fm[p..], key + ":" + ws + v)
    requires AllSpace(ws) && |v| > 0 && !IsSpace(v[0]) && '\n' !in v
    requires p + |key| + 1 + |ws| + |v| == |fm| || fm[p + |key| + 1 + |ws| + |v|] == '\n'
    ensures FieldValue(fm, key) == Some(Strip(v))
  {
    FieldLineIsCandidate(fm, key, p, ws, v);
    FieldGroupOfLine(fm, key, p, ws, v);
    FieldValueOfFirstLine(fm, key, p);
  }

  /** Such a line satisfies `^key:\s*(.+)$`, with the capture running from
      `v`'s first character to the line end. */
  lemma FieldLineIsCandidate(fm: string, key: string, p: nat, ws: string, v: string)
    requires p <= |fm|
    requires StartsWith(fm[p..], key + ":" + ws + v)
    requires AllSpace(ws) && '\n' !in v && |v| > 0
    requires p + |key| + 1 + |ws| + |v| == |fm| || fm[p + |key| + 1 + |ws| + |v|] == '\n'
    ensures var a0 := p + |key| + 1 + |ws|;
      FieldCandidate(fm, key + ":", p, a0, a0 + |v|) && fm[a0..a0 + |v|] == v
  {
    var head := key + ":";
    var line := head + ws + v;
    var a0 := p + |head| + |ws|;
    var b0 := a0 + |v|;
    assert fm[p..b0] == line by { assert fm[p..][..|line|] == fm[p..b0]; }
    assert fm[p..p + |head|] == head by { assert line[..|head|] == head; }
    assert fm[a0..b0] == v by { assert line[|head| + |ws|..] == v; }
    forall k | p + |head| <= k < a0 ensures IsSpace(fm[k]) {
      assert fm[k] == line[k - p] == ws[k - p - |head|];
    }
    forall k | a0 <= k < b0 ensures fm[k] != '\n' {
      assert fm[k] == v[k - a0];
    }
  }

  /** On such a line the capture is `v`. */
  lemma FieldGroupOfLine(fm: string, key: string, p: nat, ws: string, v: string)
    requires var a0 := p + |key| + 1 + |ws|;
      FieldCandidate(fm, key + ":", p, a0, a0 + |v|) && fm[a0..a0 + |v|] == v
    requires |v| > 0 && !IsSpace(v[0])
    ensures FieldGroupAt(fm, key, p) == Some(v)
  {
    var head := key + ":";
    var a0 := p + |head| + |ws|;
    var b0 := a0 + |v|;
    assert FieldGroupAt(fm, key, p).Some?;
    var a, b :| FieldCandidate(fm, head, p, a, b) && FieldGroupAt(fm, key, p).value == fm[a..b]
      && (forall a', b' :: FieldCandidate(fm, head, p, a', b') ==> a' <= a);
    assert a == a0 by {
      assert a0 <= a;
      assert a <= a0 by { assert fm[a0] == v[0]; assert !IsSpace(fm[a0]); }
    }
    assert b == b0 by { assert b <= b0 && b0 <= b; }
  }

  /** The field comes from the first line where the pattern matches. */
  lemma FieldValueOfFirstLine(fm: string, key: string, p: nat)
    requires FieldMatchesAt(fm, key, p)
    requires forall q :: 0 <= q < p ==> !FieldMatchesAt(fm, key, q)
    ensures FieldGroupAt(fm, key, p).Some?
    ensures FieldValue(fm, key) == Some(Strip(FieldGroupAt(fm, key, p).value))
  {
    var attempt := FieldAttempt(fm, key);
    assert attempt(p).Some? by {
      var a, b :| FieldCandidate(fm, key + ":", p, a, b);
    }
    forall q | 0 <= q < p && LineStart(fm, q) ensures attempt(q).None? {
      if attempt(q).Some? {
        var a, b :| FieldCandidate(fm, key + ":", q, a, b);
        assert FieldMatchesAt(fm, key, q);
      }
    }
    SearchFindsFirst(fm, attempt, p);
  }


  /** On the first line where it matches, `tags:`, whitespace and a
      bracketed list whose only ']' is the closing one yields every
      comma-separated piece, stripped: a list with `n` commas gives `n + 1`
      tags and empty pieces stay. */
  lemma TagsFromLine(fm: string, p: nat, ws: string, g: string)
    requires LineStart(fm, p)
    requires forall q :: 0 <= q < p ==> !TagsMatchAt(fm, q)
    requires StartsWith(fm[p..], TagsHead + ws + "[" + g + "]")
    requires AllSpace(ws) && |g| > 0 && '\n' !in g && ']' !in g[1..]
    ensures TagsValue(fm) == StripAll(SplitOn(g, ','))
  {
    TagsGroupOfLine(fm, p, ws, g);
    TagsValueOfFirstLine(fm, p);
  }

  lemma TagsGroupOfLine(fm: string, p: nat, ws: string, g: string)
    requires p <= |fm|
    requires StartsWith(fm[p..], TagsHead + ws + "[" + g + "]")
    requires AllSpace(ws) && |g| > 0 && '\n' !in g && ']' !in g[1..]
    ensures TagsGroupAt(fm, p) == Some(g)
  {
    var a0 := p + |TagsHead| + |ws|;
    var j0 := a0 + 1 + |g|;
    TagsLineIsCandidate(fm, p, ws, g);
    var group := TagsGroupAt(fm, p);
    assert group.Some?;
    var a, j :| TagsCandidate(fm, p, a, j) && group.value == fm[a + 1..j]
      && (forall a', j' :: TagsCandidate(fm, p, a', j') ==> a' == a && j <= j');
    assert a == a0 && j <= j0;
    assert j == j0;
  }

  lemma {:induction false} TagsLineIsCandidate(fm: string, p: nat, ws: string, g: string)
    requires p <= |fm|
    requires StartsWith(fm[p..], TagsHead + ws + "[" + g + "]")
    requires AllSpace(ws) && |g| > 0 && '\n' !in g && ']' !in g[1..]
    ensures TagsCandidate(fm, p, p + |TagsHead| + |ws|, p + |TagsHead| + |ws| + 1 + |g|)
    ensures fm[p + |TagsHead| + |ws| + 1..p + |TagsHead| + |ws| + 1 + |g|] == g
    ensures forall k :: p + |TagsHead| + |ws| + 1 < k < p + |TagsHead| + |ws| + 1 + |g| ==> fm[k] != ']'
  {
    var line := TagsHead + ws + "[" + g + "]";
    var a0 := p + |TagsHead| + |ws|;
    var j0 := a0 + 1 + |g|;
    assert fm[p..j0 + 1] == line by { assert fm[p..][..|line|] == fm[p..j0 + 1]; }
    assert fm[p..p + |TagsHead|] == TagsHead by { assert line[..|TagsHead|] == TagsHead; }
    assert fm[a0 + 1..j0] == g by { assert line[|TagsHead| + |ws| + 1..|line| - 1] == g; }
    assert fm[a0] == '[' && fm[j0] == ']' by { assert fm[a0] == line[a0 - p] && fm[j0] == line[j0 - p]; }
    forall k | p + |TagsHead| <= k < a0 ensures IsSpace(fm[k]) {
      assert fm[k] == line[k - p] == ws[k - p - |TagsHead|];
    }
    forall k | a0 < k < j0 ensures fm[k] != '\n' && (k > a0 + 1 ==> fm[k] != ']') {
      assert fm[k] == g[k - a0 - 1];
      if k > a0 + 1 { assert fm[k] == g[1..][k - a0 - 2]; }
    }
  }

  lemma TagsValueOfFirstLine(fm: string, p: nat)
    requires TagsMatchAt(fm, p)
    requires forall q :: 0 <= q < p ==> !TagsMatchAt(fm, q)
    ensures TagsGroupAt(fm, p).Some?
    ensures TagsValue(fm) == StripAll(SplitOn(TagsGroupAt(fm, p).value, ','))
  {
    var attempt := TagsAttempt(fm);
    assert attempt(p).Some? by {
      var a, j :| TagsCandidate(fm, p, a, j);
    }
    forall q | 0 <= q < p && LineStart(fm, q) ensures attempt(q).None? {
      if attempt(q).Some? {
        var a, j :| TagsCandidate(fm, q, a, j);
        assert TagsMatchAt(fm, q);
      }
    }
    SearchFindsFirst(fm, attempt, p);
  }

  /** A search from the start stops at the first line where the attempt
      matches. */
  lemma SearchFindsFirst(s: string, attempt: nat -> Option<string>, p: nat)
    requires LineStart(s, p) && attempt(p).Some?
    requires forall q :: 0 <= q < p && LineStart(s, q) ==> attempt(q).None?
    ensures SearchLines(s, attempt, 0) == Some((p, attempt(p).value))
  {
    var r := SearchLines(s, attempt, 0);
    assert r.Some?;
    assert r.value.0 == p;
  }


}
