/** `analyzeCV`: ask the model about one CV, strip any markdown fences from
    its reply, parse the reply and repair its fields (score rounded and
    clamped to [0, 100], at most four strengths and gaps, summary defaulted).
    The model call (prompt, SDK, choice of the first text block) and
    `JSON.parse` are parameters. */
module Reply {
  import opened Types
  import opened Strings

  /** A field the reply may or may not hold as an array. */
  datatype ListField = Array(items: seq<string>) | NotArray

  /** What `JSON.parse` produced, read loosely: the score as a number, the
      two list fields, and the summary when present. */
  datatype ParsedReply = ParsedReply(score: real, strengths: ListField, gaps: ListField, summary: Option<string>)

  /** The repaired analysis of one CV. */
  datatype Analysis = Analysis(score: int, strengths: seq<string>, gaps: seq<string>, summary: string)

  /** The model call, from job description and CV text to the reply text
      (the empty string when the first content block is not text), and the
      JSON parser, which yields nothing when it throws or when the parsed
      value is `null`. */
  datatype ModelServices = ModelServices(
    complete: (string, string) -> Attempt<string>,
    parse: string -> Option<ParsedReply>)

  const FormatError := "Claude returned an unexpected response format."

  /** "```" starts at position `k` of `s`. */
  predicate FenceAt(s: string, k: int)
    requires 0 <= k && k + 3 <= |s|
  {
    s[k] == '`' && s[k + 1] == '`' && s[k + 2] == '`'
  }

  /** `s` holds "```" somewhere. */
  predicate HasFence(s: string) {
    exists k :: 0 <= k && k + 3 <= |s| && FenceAt(s, k)
  }

  predicate NoBackquote(s: string) {
    forall k :: 0 <= k < |s| ==> s[k] != '`'
  }

  /** `s.replace(/```(?:json)?/gi, '')`: scanning left to right, remove each
      "```" together with a "json" tag (in any case) right after it. */
  function StripTaggedFences(s: string): (r: string)
    ensures |r| <= |s|
    ensures NoBackquote(s) ==> r == s
    decreases |s|
  {
    if |s| < 3 then s
    else if FenceAt(s, 0) then
      if |s| >= 7 && Lower(s[3..7]) == "json" then StripTaggedFences(s[7..]) else StripTaggedFences(s[3..])
    else
      assert NoBackquote(s) ==> NoBackquote(s[1..]) by {
        if NoBackquote(s) {
          forall k | 0 <= k < |s[1..]| ensures s[1..][k] != '`' {
            assert s[1..][k] == s[k + 1];
          }
        }
      }
      [s[0]] + StripTaggedFences(s[1..])
  }

  /** A leading character that is not a backquote is kept, and the scan
      goes on after it. */
  lemma StripTaggedFencesKeeps(c: char, t: string)
    requires c != '`'
    ensures StripTaggedFences([c] + t) == [c] + StripTaggedFences(t)
  {
    var s := [c] + t;
    assert s[1..] == t;
    if |s| >= 3 {
      assert !FenceAt(s, 0);
    }
  }

  /** A "```" at the front is dropped together with the "json" tag after
      it. */
  lemma TaggedFenceAtFront(tag: string, rest: string)
    requires Lower(tag) == "json"
    ensures StripTaggedFences("```" + tag + rest) == StripTaggedFences(rest)
  {
    var s := "```" + tag + rest;
    assert |tag| == 4;
    assert FenceAt(s, 0);
    assert s[3..7] == tag;
    assert s[7..] == rest;
  }

  /** Text with no backquote in front of the rest is kept as it is, and the
      scan goes on with the rest. */
  lemma {:induction false} KeptPrefix(b: string, u: string)
    requires NoBackquote(b)
    ensures StripTaggedFences(b + u) == b + StripTaggedFences(u)
    decreases |b|
  {
    if b == [] {
      assert b + u == u;
    } else {
      var c, t := b[0], b[1..];
      assert NoBackquote(t) by {
        forall k | 0 <= k < |t| ensures t[k] != '`' {
          assert t[k] == b[k + 1];
        }
      }
      calc {
        StripTaggedFences(b + u);
        { assert b + u == [c] + (t + u); }
        StripTaggedFences([c] + (t + u));
        { StripTaggedFencesKeeps(c, t + u); }
        [c] + StripTaggedFences(t + u);
        { KeptPrefix(t, u); }
        [c] + (t + StripTaggedFences(u));
        { assert [c] + t == b; }
        b + StripTaggedFences(u);
      }
    }
  }

  /** Text before the first backquote is kept as it is, and a "```" there
      is removed together with a "json" tag in any case right after it. */
  lemma TaggedFenceRemoved(b: string, tag: string, rest: string)
    requires NoBackquote(b)
    requires Lower(tag) == "json"
    ensures StripTaggedFences(b + "```" + tag + rest) == b + StripTaggedFences(rest)
  {
    var u := "```" + tag + rest;
    assert b + "```" + tag + rest == b + u;
    KeptPrefix(b, u);
    TaggedFenceAtFront(tag, rest);
  }

  lemma NoFenceCons(c: char, t: string)
    requires !HasFence(t)
    requires !(c == '`' && |t| >= 2 && t[0] == '`' && t[1] == '`')
    ensures !HasFence([c] + t)
  {
    var s := [c] + t;
    forall k | 0 <= k && k + 3 <= |s| ensures !FenceAt(s, k) {
      if k > 0 {
        assert s[k] == t[k - 1] && s[k + 1] == t[k] && s[k + 2] == t[k + 1];
        assert !FenceAt(t, k - 1);
      }
    }
  }

  /** `s.replace(/```/g, '')`: remove every "```", leftmost first. What is
      left holds no "```": a character kept in front of the rest of the scan
      never completes a new fence with it. */
  function StripFences(s: string): (r: string)
    ensures !HasFence(r)
    ensures |s| > 0 && s[0] != '`' ==> |r| > 0 && r[0] == s[0]
    ensures |s| > 1 && s[0] == '`' && s[1] != '`' ==> |r| > 1 && r[0] == '`' && r[1] == s[1]
    decreases |s|
  {
    if |s| < 3 then s
    else if FenceAt(s, 0) then StripFences(s[3..])
    else
      var rest := StripFences(s[1..]);
      assert s[0] == '`' && s[1] == '`' ==> s[1..][0] == '`' && s[1..][1] != '`';
      NoFenceCons(s[0], rest);
      [s[0]] + rest
  }

  lemma {:induction false} NoFenceSlice(s: string, i: int, j: int)
    requires 0 <= i <= j <= |s|
    requires !HasFence(s)
    ensures !HasFence(s[i..j])
  {
    var t := s[i..j];
    forall k | 0 <= k && k + 3 <= |t| ensures !FenceAt(t, k) {
      assert t[k] == s[i + k] && t[k + 1] == s[i + k + 1] && t[k + 2] == s[i + k + 2];
      assert !FenceAt(s, i + k);
    }
  }

  /** Trimming cannot create a fence: it only cuts off ends. */
  lemma TrimKeepsNoFence(s: string)
    requires !HasFence(s)
    ensures !HasFence(Trim(s))
  {
    var i, j :| 0 <= i <= j <= |s| && Trim(s) == s[i..j] && AllSpace(s[..i]) && AllSpace(s[j..]);
    NoFenceSlice(s, i, j);
  }

  /** The cleaned reply: fences stripped, then trimmed. It never holds
      "```" and has no white space at either end. */
  function CleanReply(raw: string): (r: string)
    ensures !HasFence(r)
    ensures IsTrimmed(r)
  {
    var t := StripFences(StripTaggedFences(raw));
    TrimKeepsNoFence(t);
    Trim(t)
  }

  lemma {:induction false} UnfencedUntagged(b: string)
    requires NoBackquote(b)
    ensures StripTaggedFences(b + "```") == b
    decreases |b|
  {
    if b == [] {
      assert StripTaggedFences("```") == StripTaggedFences("");
    } else {
      assert (b + "```")[1..] == b[1..] + "```";
      UnfencedUntagged(b[1..]);
    }
  }

  lemma {:induction false} UnfencedUnchanged(b: string)
    requires NoBackquote(b)
    ensures StripFences(b) == b
    decreases |b|
  {
    if |b| >= 3 {
      UnfencedUnchanged(b[1..]);
    }
  }

  /** Text that holds no "```" passes both replaces unchanged, inline
      backquotes included. */
  lemma {:induction false} NoFenceUnchanged(s: string)
    requires !HasFence(s)
    ensures StripTaggedFences(s) == s && StripFences(s) == s
    decreases |s|
  {
    if |s| >= 3 {
      assert !FenceAt(s, 0);
      NoFenceSlice(s, 1, |s|);
      assert s[1..|s|] == s[1..];
      NoFenceUnchanged(s[1..]);
    }
  }

  /** A closing "```" after fence-free text that does not end in a backquote
      is removed, and the text before it is kept. */
  lemma {:induction false} ClosingFenceRemoved(b: string)
    requires !HasFence(b) && |b| > 0 && b[|b| - 1] != '`'
    ensures StripTaggedFences(b + "```") == b
    decreases |b|
  {
    var s := b + "```";
    if |b| >= 3 {
      assert s[..3] == b[..3];
      assert !FenceAt(b, 0);
    } else {
      assert s[|b| - 1] == b[|b| - 1];
    }
    assert !FenceAt(s, 0);
    assert s[1..] == b[1..] + "```";
    if |b| == 1 {
      assert StripTaggedFences("```") == StripTaggedFences("");
    } else {
      NoFenceSlice(b, 1, |b|);
      assert b[1..|b|] == b[1..];
      assert b[1..][|b| - 2] == b[|b| - 1];
      ClosingFenceRemoved(b[1..]);
    }
  }

  /** The common case: a reply without any "```" is only trimmed. */
  lemma UnfencedReplyIsTrimmed(raw: string)
    requires !HasFence(raw)
    ensures CleanReply(raw) == Trim(raw)
  {
    NoFenceUnchanged(raw);
  }

  /** A reply wrapped as "```json" ... "```" (tag in any case) whose body has
      no backquote cleans to the trimmed body. */
  lemma {:induction false} FencedReplyCleansToBody(tag: string, body: string)
    requires Lower(tag) == "json"
    requires NoBackquote(body)
    ensures CleanReply("```" + tag + body + "```") == Trim(body)
  {
    var s := "```" + tag + body + "```";
    assert FenceAt(s, 0);
    assert s[3..7] == tag;
    assert s[7..] == body + "```";
    UnfencedUntagged(body);
    UnfencedUnchanged(body);
  }

  /** A fence without a tag ("```" then a body that does not start with
      "json" in any case, then "```") also cleans to the trimmed body. */
  lemma {:induction false} UntaggedFenceCleansToBody(body: string)
    requires NoBackquote(body)
    requires !(|body| >= 4 && Lower(body[..4]) == "json")
    ensures CleanReply("```" + body + "```") == Trim(body)
  {
    var s := "```" + body + "```";
    OpeningFenceUntagged(body);
    assert FenceAt(s, 0);
    assert s[3..] == body + "```";
    assert StripTaggedFences(s) == StripTaggedFences(body + "```");
    UnfencedUntagged(body);
    UnfencedUnchanged(body);
  }

  /** After the opening "```" of an untagged fence there is no "json" tag. */
  lemma OpeningFenceUntagged(body: string)
    requires NoBackquote(body)
    requires !(|body| >= 4 && Lower(body[..4]) == "json")
    ensures var s := "```" + body + "```"; !(|s| >= 7 && Lower(s[3..7]) == "json")
  {
    var s := "```" + body + "```";
    if |body| >= 4 {
      assert s[3..7] == body[..4];
    } else if |s| >= 7 {
      assert s[3 + |body|] == '`';
      assert Lower(s[3..7])[|body|] == '`';
    }
  }

  /** The usual shape, "```json\n{...}\n```", cleans to the JSON object text
      itself, even when its strings hold single backquotes. */
  lemma FencedObjectCleansToObject(tag: string, obj: string)
    requires Lower(tag) == "json"
    requires !HasFence(obj) && IsTrimmed(obj)
    ensures CleanReply("```" + tag + "\n" + obj + "\n" + "```") == obj
  {
    var body := "\n" + obj + "\n";
    var s := "```" + tag + body + "```";
    assert "```" + tag + "\n" + obj + "\n" + "```" == s;
    assert !HasFence(body) by {
      forall k | 0 <= k && k + 3 <= |body| ensures !FenceAt(body, k) {
        if 0 < k && k + 3 < |body| {
          assert body[k] == obj[k - 1] && body[k + 1] == obj[k] && body[k + 2] == obj[k + 1];
          assert !FenceAt(obj, k - 1);
        }
      }
    }
    assert FenceAt(s, 0);
    assert s[3..7] == tag;
    assert s[7..] == body + "```";
    ClosingFenceRemoved(body);
    NoFenceUnchanged(body);
    TrimPadded("\n", obj, "\n");
  }

  /** `Math.round`: the nearest integer, halves rounded up. */
  function Round(x: real): (n: int)
    ensures n as real <= x + 0.5 < n as real + 1.0
  {
    (x + 0.5).Floor
  }

  /** `Math.min(100, Math.max(0, n))`. */
  function Clamp(n: int): (r: int)
    ensures 0 <= r <= 100
    ensures 0 <= n <= 100 ==> r == n
    ensures n < 0 ==> r == 0
    ensures n > 100 ==> r == 100
  {
    if n < 0 then 0 else if n > 100 then 100 else n
  }

  /** The repaired score: the nearest integer to the model's score, pushed
      into [0, 100]. */
  function NormaliseScore(x: real): (r: int)
    ensures 0 <= r <= 100
    ensures -0.5 <= x < 100.5 ==> r as real - 0.5 <= x < r as real + 0.5
    ensures x < -0.5 ==> r == 0
    ensures x >= 100.5 ==> r == 100
  {
    Clamp(Round(x))
  }

  /** An integral score is only clamped: kept when in [0, 100], else moved to
      the nearer bound. */
  lemma IntegralScore(n: int)
    ensures Round(n as real) == n
    ensures NormaliseScore(n as real) == (if n < 0 then 0 else if n > 100 then 100 else n)
  {
  }

  /** `Array.isArray(f) ? f.slice(0, 4) : []`. */
  function FirstFour(f: ListField): (r: seq<string>)
    ensures f.NotArray? ==> r == []
    ensures f.Array? ==> |r| == (if |f.items| < 4 then |f.items| else 4) && r == f.items[..|r|]
  {
    match f
    case NotArray => []
    case Array(items) => if |items| <= 4 then items else items[..4]
  }

  /** The field repair applied to a parsed reply. */
  function Normalise(p: ParsedReply): (a: Analysis)
    ensures 0 <= a.score <= 100 && a.score == Clamp(Round(p.score))
    ensures |a.strengths| <= 4 && |a.gaps| <= 4
    ensures p.strengths.Array? ==>
      |a.strengths| <= |p.strengths.items| && a.strengths == p.strengths.items[..|a.strengths|]
    ensures p.gaps.Array? ==> |a.gaps| <= |p.gaps.items| && a.gaps == p.gaps.items[..|a.gaps|]
    ensures a.strengths == FirstFour(p.strengths) && a.gaps == FirstFour(p.gaps)
    ensures p.strengths.NotArray? ==> a.strengths == []
    ensures p.gaps.NotArray? ==> a.gaps == []
    ensures a.summary == (if p.summary.Some? then p.summary.value else "")
  {
    Analysis(
      NormaliseScore(p.score),
      FirstFour(p.strengths),
      FirstFour(p.gaps),
      match p.summary case Some(s) => s case None => "")
  }

  /** Repairing an already repaired reply changes nothing. */
  lemma NormaliseIdempotent(p: ParsedReply)
    ensures var a := Normalise(p);
      Normalise(ParsedReply(a.score as real, Array(a.strengths), Array(a.gaps), Some(a.summary))) == a
  {
    var a := Normalise(p);
    IntegralScore(a.score);
    assert a.strengths[..|a.strengths|] == a.strengths;
    assert a.gaps[..|a.gaps|] == a.gaps;
  }

  /** `analyzeCV(jd, cvText)`: a failed model call propagates its error, a
      reply that does not parse becomes the fixed format error, and a parsed
      reply is repaired. */
  function AnalyzeCV(jd: string, cvText: string, svc: ModelServices): (r: Attempt<Analysis>)
    ensures svc.complete(jd, cvText).Fail? ==> r == Fail(svc.complete(jd, cvText).thrown)
    ensures svc.complete(jd, cvText).Ok? && svc.parse(CleanReply(svc.complete(jd, cvText).value)).None?
      ==> r == Fail(ErrorValue(FormatError))
    ensures svc.complete(jd, cvText).Ok? && svc.parse(CleanReply(svc.complete(jd, cvText).value)).Some? ==>
      r == Ok(Normalise(svc.parse(CleanReply(svc.complete(jd, cvText).value)).value))
    ensures r.Ok? ==> 0 <= r.value.score <= 100 && |r.value.strengths| <= 4 && |r.value.gaps| <= 4
  {
    match svc.complete(jd, cvText)
    case Fail(t) => Fail(t)
    case Ok(raw) =>
      match svc.parse(CleanReply(raw))
      case None => Fail(ErrorValue(FormatError))
      case Some(p) => Ok(Normalise(p))
  }
}
