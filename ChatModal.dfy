/**
 * The assistant chat window (features/ai-assistant/components/ChatModal.js): the scanner that
 * pulls the urls out of Markdown image tokens `![alt](url)`, the formatter that strips those
 * tokens and collapses whitespace, and the message-list transitions of a submit.
 *
 * The pattern is `!\[.*?\]\((.*?)\)` with the global flag. `.` matches any character except
 * the four ECMAScript line terminators, and both `.*?` are lazy.
 */
module ChatModal {
  import opened Wrappers
  import Text
  import Lists

  // ---------------------------------------------------------------------------------------
  // The pattern

  predicate IsLineTerminator(c: char)
  {
    c == '\n' || c == '\r' || c == '\U{2028}' || c == '\U{2029}'
  }

  /** `s[i..j]` exists and `.` matches every character of it. */
  ghost predicate OnOneLine(s: string, i: nat, j: nat)
  {
    i <= j <= |s| && forall k :: i <= k < j ==> !IsLineTerminator(s[k])
  }

  /** `pat` occurs in `s` at `k`. */
  predicate At(s: string, k: nat, pat: string)
  {
    k + |pat| <= |s| && s[k..k + |pat|] == pat
  }

  /**
   * The first occurrence of `pat` at or after `from` reachable without crossing a line
   * terminator: how a lazy `.*?` followed by `pat` advances.
   */
  function Find(s: string, from: nat, pat: string): (r: Option<nat>)
    requires from <= |s|
    requires pat != [] && !IsLineTerminator(pat[0])
    decreases |s| - from
    ensures r.Some? ==> from <= r.value && r.value + |pat| <= |s|
  {
    if At(s, from, pat) then Some(from)
    else if from == |s| || IsLineTerminator(s[from]) then None
    else
      Find(s, from + 1, pat)
  }

  /**
   * Find's answer is the lazy one: an occurrence on the same line with none before it, and
   * when there is no answer, every occurrence lies beyond a line terminator.
   */
  lemma {:induction false} FindIsFirst(s: string, from: nat, pat: string)
    requires from <= |s|
    requires pat != [] && !IsLineTerminator(pat[0])
    ensures Find(s, from, pat).Some? ==>
              At(s, Find(s, from, pat).value, pat) && OnOneLine(s, from, Find(s, from, pat).value)
    ensures Find(s, from, pat).Some? ==> forall k :: from <= k < Find(s, from, pat).value ==> !At(s, k, pat)
    ensures Find(s, from, pat).None? ==> forall k :: from <= k && At(s, k, pat) ==> !OnOneLine(s, from, k)
    decreases |s| - from
  {
    if !At(s, from, pat) && !(from == |s| || IsLineTerminator(s[from])) {
      FindIsFirst(s, from + 1, pat);
    }
  }

  /** One match of the pattern: `![` at `start`, `](` at `mid`, `)` at `close`. */
  datatype Match = Match(start: nat, mid: nat, close: nat)

  /** What the pattern requires of a match at `p` whose `](` is at `q` and whose `)` is at `r`. */
  ghost predicate IsMatch(s: string, p: nat, q: nat, r: nat)
  {
    At(s, p, "![") && p + 2 <= q && OnOneLine(s, p + 2, q) && At(s, q, "](")
    && q + 2 <= r && OnOneLine(s, q + 2, r) && r < |s| && s[r] == ')'
  }

  /** The match the lazy pattern makes when tried at position `p`, if any. */
  function MatchAt(s: string, p: nat): (m: Option<Match>)
    requires p <= |s|
    ensures m.Some? ==> m.value.start == p && p + 2 <= m.value.mid
    ensures m.Some? ==> m.value.mid + 2 <= m.value.close < |s|
  {
    if !At(s, p, "![") then None
    else
      match Find(s, p + 2, "](")
      case None => None
      case Some(q) =>
        match Find(s, q + 2, ")")
        case None => None
        case Some(r) => Some(Match(p, q, r))
  }

  /** A match MatchAt finds satisfies every condition of the pattern. */
  lemma MatchAtIsMatch(s: string, p: nat)
    requires p <= |s| && MatchAt(s, p).Some?
    ensures IsMatch(s, p, MatchAt(s, p).value.mid, MatchAt(s, p).value.close)
  {
    FindIsFirst(s, p + 2, "](");
    var q := Find(s, p + 2, "](").value;
    FindIsFirst(s, q + 2, ")");
    var r := Find(s, q + 2, ")").value;
    assert s[r..r + 1] == ")";
    assert s[r] == s[r..r + 1][0];
  }

  /**
   * MatchAt is the regular expression's own choice: a match at `p` exists exactly when MatchAt
   * finds one, and MatchAt's is the one the lazy quantifiers prefer, the least `](` position
   * first and then the least `)` position.
   */
  lemma MatchAtIsLazyMatch(s: string, p: nat, q: nat, r: nat)
    requires p <= |s|
    requires IsMatch(s, p, q, r)
    ensures MatchAt(s, p).Some?
    ensures MatchAt(s, p).value.mid < q
            || (MatchAt(s, p).value.mid == q && MatchAt(s, p).value.close <= r)
  {
    FindIsFirst(s, p + 2, "](");
    var q0 := Find(s, p + 2, "](");
    assert q0.Some?;
    var q1 := q0.value;
    assert q1 <= q;
    assert At(s, r, ")") by { assert s[r..r + 1] == [s[r]]; }
    assert OnOneLine(s, q1 + 2, r) by {
      forall k | q1 + 2 <= k < r ensures !IsLineTerminator(s[k]) {
        if k < q { } else if k == q || k == q + 1 {
          assert s[k] == s[q..q + 2][k - q];
        } else { }
      }
    }
    FindIsFirst(s, q1 + 2, ")");
    var r0 := Find(s, q1 + 2, ")");
    assert r0.Some?;
    if q1 == q {
      assert r0.value <= r;
    }
  }

  /** The leftmost match starting at or after `last`: one call of the global pattern's `exec`. */
  function Exec(s: string, last: nat): (m: Option<Match>)
    requires last <= |s|
    decreases |s| - last
    ensures m.Some? ==> last <= m.value.start && m.value.start + 2 <= m.value.mid
    ensures m.Some? ==> m.value.mid + 2 <= m.value.close < |s|
  {
    if MatchAt(s, last).Some? then MatchAt(s, last)
    else if last == |s| then None
    else Exec(s, last + 1)
  }

  /** What `exec` returns is the match the pattern makes at its start. */
  lemma {:induction false} ExecFindsMatchAt(s: string, last: nat)
    requires last <= |s| && Exec(s, last).Some?
    ensures MatchAt(s, Exec(s, last).value.start) == Exec(s, last)
    decreases |s| - last
  {
    if MatchAt(s, last).None? {
      ExecFindsMatchAt(s, last + 1);
    }
  }

  /** `exec` finds the leftmost match: no match starts between `last` and the one it returns. */
  lemma {:induction false} ExecIsLeftmost(s: string, last: nat, p: nat)
    requires last <= p <= |s|
    requires Exec(s, last).None? || p < Exec(s, last).value.start
    ensures MatchAt(s, p).None?
    decreases |s| - last
  {
    if last < p {
      ExecIsLeftmost(s, last + 1, p);
    }
  }

  /** The captured url of a match. */
  function Url(s: string, m: Match): (u: string)
    requires m.mid + 2 <= m.close <= |s|
    ensures |u| == m.close - m.mid - 2
  {
    s[m.mid + 2..m.close]
  }

  /** A url the pattern can capture. */
  ghost predicate IsUrl(u: string)
  {
    ')' !in u && forall i :: 0 <= i < |u| ==> !IsLineTerminator(u[i])
  }

  lemma UrlOfMatch(s: string, m: Match)
    requires m.start <= |s| && MatchAt(s, m.start) == Some(m)
    ensures IsUrl(Url(s, m))
  {
    var u := Url(s, m);
    var q := Find(s, m.start + 2, "](").value;
    assert q == m.mid;
    FindIsFirst(s, m.mid + 2, ")");
    forall i | 0 <= i < |u| ensures u[i] != ')' {
      assert u[i] == s[m.mid + 2 + i];
      assert !At(s, m.mid + 2 + i, ")");
      assert s[m.mid + 2 + i..m.mid + 2 + i + 1] == [s[m.mid + 2 + i]];
    }
  }

  /** The urls of the successive matches from `last` on, each search resuming after the previous match. */
  function Scan(s: string, last: nat): (r: seq<string>)
    requires last <= |s|
    decreases |s| - last
  {
    match Exec(s, last)
    case None => []
    case Some(m) => [Url(s, m)] + Scan(s, m.close + 1)
  }

  /** Every url the scan returns is one the capture group can match: no `)` and no line break. */
  lemma {:induction false} ScanUrls(s: string, last: nat)
    requires last <= |s|
    ensures forall u :: u in Scan(s, last) ==> IsUrl(u)
    decreases |s| - last
  {
    var m := Exec(s, last);
    if m.Some? {
      ExecFindsMatchAt(s, last);
      UrlOfMatch(s, m.value);
      ScanUrls(s, m.value.close + 1);
    }
  }

  lemma ScanStep(s: string, last: nat, m: Match)
    requires last <= |s| && Exec(s, last) == Some(m)
    ensures m.close + 1 <= |s|
    ensures Scan(s, last) == [Url(s, m)] + Scan(s, m.close + 1)
  {
  }

  /** `images` holds the urls the scan finds before `last`: the rest of the scan completes it. */
  ghost predicate ScannedUpTo(s: string, images: seq<string>, last: nat)
  {
    last <= |s| && images + Scan(s, last) == Scan(s, 0)
  }

  /** One turn of the `exec` loop: the url found moves from the rest of the scan to the result. */
  lemma ScanLoopStep(s: string, images: seq<string>, last: nat, m: Match, images': seq<string>, last': nat)
    requires ScannedUpTo(s, images, last) && Exec(s, last) == Some(m)
    requires images' == images + [Url(s, m)] && last' == m.close + 1
    ensures ScannedUpTo(s, images', last')
  {
    ScanStep(s, last, m);
    AppendAssoc(images, [Url(s, m)], Scan(s, m.close + 1));
  }

  lemma AppendAssoc<T>(a: seq<T>, b: seq<T>, c: seq<T>)
    ensures (a + b) + c == a + (b + c)
  {
  }

  lemma AppendEmpty<T>(a: seq<T>)
    ensures [] + a == a && a + [] == a
  {
  }

  /** `extractImagesFromMarkdown`: the `exec` loop, collecting the first capture group of every match. */
  method ExtractImages(text: string) returns (images: seq<string>)
    ensures images == Scan(text, 0)
    ensures forall u :: u in images ==> IsUrl(u)
  {
    images := [];
    var lastIndex := 0;
    AppendEmpty(Scan(text, 0));
    while true
      invariant ScannedUpTo(text, images, lastIndex)
      decreases |text| - lastIndex
    {
      var m := Exec(text, lastIndex);
      if m.None? {
        break;
      }
      ghost var (images0, lastIndex0) := (images, lastIndex);
      images := images + [Url(text, m.value)];
      lastIndex := m.value.close + 1;
      ScanLoopStep(text, images0, lastIndex0, m.value, images, lastIndex);
    }
    assert Scan(text, lastIndex) == [];
    AppendEmpty(images);
    ScanUrls(text, 0);
  }

  lemma NotAt(s: string, k: nat, pat: string)
    requires k < |s| && pat != [] && s[k] != pat[0]
    ensures !At(s, k, pat)
  {
  }

  /** The lazy `.*?` stops at the first `)`: in `![a](b)c)` the url is `b`. */
  lemma FirstCloseEndsUrl()
    ensures Scan("![a](b)c)", 0) == ["b"]
  {
    var s := "![a](b)c)";
    assert At(s, 0, "![");
    assert Find(s, 2, "](") == Some(3) by { assert At(s, 3, "]("); NotAt(s, 2, "]("); }
    assert Find(s, 5, ")") == Some(6) by { assert At(s, 6, ")"); NotAt(s, 5, ")"); }
    assert Exec(s, 0) == Some(Match(0, 3, 6));
    assert Url(s, Match(0, 3, 6)) == "b";
    assert Exec(s, 7).None? by {
      NotAt(s, 7, "![");
      assert !At(s, 8, "![") && !At(s, 9, "![");
    }
  }

  /** `content.replace(pattern, '')`: the text between the successive matches. */
  function Strip(s: string, last: nat): (r: string)
    requires last <= |s|
    decreases |s| - last
    ensures |r| <= |s| - last
  {
    match Exec(s, last)
    case None => s[last..]
    case Some(m) => s[last..m.start] + Strip(s, m.close + 1)
  }

  /** A text with no `![` in it has no images, and stripping leaves it as it was. */
  lemma {:induction false} NoImageSyntax(s: string, last: nat)
    requires last <= |s|
    requires !Text.Contains(s, "![")
    ensures Exec(s, last).None?
    ensures Scan(s, last) == [] && Strip(s, last) == s[last..]
    decreases |s| - last
  {
    if MatchAt(s, last).Some? {
      Text.ContainsAt(s, "![", last);
    }
    if last < |s| {
      NoImageSyntax(s, last + 1);
    }
  }

  // ---------------------------------------------------------------------------------------
  // Formatting

  predicate NotSpace(c: char)
  {
    !Text.IsSpace(c)
  }

  /** No two neighbouring characters are both whitespace. */
  ghost predicate NoDoubleSpace(s: string)
  {
    forall i :: 0 <= i < |s| - 1 ==> !(Text.IsSpace(s[i]) && Text.IsSpace(s[i + 1]))
  }

  /** `s.replace(/\s+/g, ' ')`: every run of whitespace becomes one space. */
  function Collapse(s: string): (r: string)
    decreases |s|
    ensures NoDoubleSpace(r)
    ensures forall i :: 0 <= i < |r| && Text.IsSpace(r[i]) ==> r[i] == ' '
    ensures s == [] <==> r == []
    ensures s != [] ==> (Text.IsSpace(r[0]) <==> Text.IsSpace(s[0]))
  {
    if s == [] then []
    else if Text.IsSpace(s[0]) then
      var rest := Text.DropLeadingSpaces(s);
      [' '] + Collapse(rest)
    else
      [s[0]] + Collapse(s[1..])
  }

  /** Collapsing removes and adds only whitespace: the other characters are kept, in order. */
  lemma {:induction false} CollapseKeepsText(s: string)
    ensures Lists.Filter(Collapse(s), NotSpace) == Lists.Filter(s, NotSpace)
    decreases |s|, 1
  {
    if s == [] {
    } else if Text.IsSpace(s[0]) {
      CollapseRunKeepsText(s);
    } else {
      CollapseKeepsText(s[1..]);
      KeptCharFilters(s, Collapse(s[1..]));
      KeptCharFilters(s, s[1..]);
      assert s == [s[0]] + s[1..];
    }
  }

  lemma KeptCharFilters(s: string, t: string)
    requires s != [] && NotSpace(s[0])
    ensures Lists.Filter([s[0]] + t, NotSpace) == [s[0]] + Lists.Filter(t, NotSpace)
  {
    Lists.FilterConcat([s[0]], t, NotSpace);
  }

  /** The case of a leading whitespace run, which becomes one space. */
  lemma {:induction false} CollapseRunKeepsText(s: string)
    requires s != [] && Text.IsSpace(s[0])
    ensures Lists.Filter(Collapse(s), NotSpace) == Lists.Filter(s, NotSpace)
    decreases |s|, 0
  {
    var rest := Text.DropLeadingSpaces(s);
    CollapseKeepsText(rest);
    LeadingSpacesKeepNothing(s);
    assert Collapse(s) == [' '] + Collapse(rest);
    Lists.FilterConcat([' '], Collapse(rest), NotSpace);
  }

  /** Dropping the leading whitespace removes no character that filtering keeps. */
  lemma LeadingSpacesKeepNothing(s: string)
    ensures Lists.Filter(s, NotSpace) == Lists.Filter(Text.DropLeadingSpaces(s), NotSpace)
  {
    var rest := Text.DropLeadingSpaces(s);
    var blanks := s[..|s| - |rest|];
    assert s == blanks + rest;
    Lists.FilterConcat(blanks, rest, NotSpace);
    BlankIffNothingKept(blanks);
  }

  /** Trimming keeps a contiguous piece, so it keeps the properties collapsing established. */
  lemma TrimOfCollapsed(c: string)
    requires NoDoubleSpace(c)
    requires forall i :: 0 <= i < |c| && Text.IsSpace(c[i]) ==> c[i] == ' '
    ensures NoDoubleSpace(Text.Trim(c))
    ensures forall i :: 0 <= i < |Text.Trim(c)| && Text.IsSpace(Text.Trim(c)[i]) ==> Text.Trim(c)[i] == ' '
  {
    var from := Text.TrimIsSlice(c);
    SliceKeepsSpacing(c, from, from + |Text.Trim(c)|);
  }

  /** A contiguous piece of a text keeps its spacing properties. */
  lemma SliceKeepsSpacing(c: string, i: nat, j: nat)
    requires i <= j <= |c|
    requires NoDoubleSpace(c)
    requires forall k :: 0 <= k < |c| && Text.IsSpace(c[k]) ==> c[k] == ' '
    ensures NoDoubleSpace(c[i..j])
    ensures forall k :: 0 <= k < j - i && Text.IsSpace(c[i..j][k]) ==> c[i..j][k] == ' '
  {
    assert forall k :: 0 <= k < j - i ==> c[i..j][k] == c[i + k];
  }

  /** The longest prefix of `s` without whitespace. */
  function LeadingWord(s: string): (w: string)
    ensures |w| <= |s| && w == s[..|w|]
    ensures forall i :: 0 <= i < |w| ==> NotSpace(w[i])
    ensures |w| == |s| || Text.IsSpace(s[|w|])
    ensures s != [] && NotSpace(s[0]) ==> w != []
    decreases |s|
  {
    if s == [] || Text.IsSpace(s[0]) then [] else [s[0]] + LeadingWord(s[1..])
  }

  /** The words of `s`: its maximal runs of non-whitespace characters, in order. */
  function Words(s: string): (ws: seq<string>)
    decreases |s|
  {
    var t := Text.DropLeadingSpaces(s);
    if t == [] then []
    else
      var w := LeadingWord(t);
      [w] + Words(t[|w|..])
  }

  /** `words.join(' ')` */
  function Join(ws: seq<string>): string
  {
    if ws == [] then [] else if |ws| == 1 then ws[0] else ws[0] + " " + Join(ws[1..])
  }

  /** A word at the front passes through collapsing unchanged. */
  lemma {:induction false} CollapseWord(w: string, u: string)
    requires forall i :: 0 <= i < |w| ==> NotSpace(w[i])
    ensures Collapse(w + u) == w + Collapse(u)
  {
    if w == [] {
      assert w + u == u;
    } else {
      assert (w + u)[1..] == w[1..] + u;
      CollapseWord(w[1..], u);
      assert w == [w[0]] + w[1..];
    }
  }

  /** Trailing whitespace can only be dropped from the end piece, when that piece starts with a non-space. */
  lemma {:induction false} DropTrailingAfter(a: string, b: string)
    requires b != [] && NotSpace(b[0])
    ensures Text.DropTrailingSpaces(a + b) == a + Text.DropTrailingSpaces(b)
    decreases |b|
  {
    var ab := a + b;
    if Text.IsSpace(ab[|ab| - 1]) {
      var b' := b[..|b| - 1];
      assert ab[..|ab| - 1] == a + b';
      DropTrailingAfter(a, b');
    }
  }

  /** Collapsing and trimming a text is joining its words with single spaces. */
  lemma {:induction false} TrimCollapseIsJoin(s: string)
    ensures Text.Trim(Collapse(s)) == Join(Words(s))
    decreases |s|, 1
  {
    var t := Text.DropLeadingSpaces(s);
    assert Text.DropLeadingSpaces(t) == t;
    assert Words(s) == Words(t);
    if s != [] && Text.IsSpace(s[0]) {
      assert Collapse(s) == [' '] + Collapse(t);
      assert ([' '] + Collapse(t))[1..] == Collapse(t);
      assert Text.DropLeadingSpaces(Collapse(s)) == Text.DropLeadingSpaces(Collapse(t));
    }
    if t != [] {
      TrimCollapseWordFirst(t);
    }
  }

  /** Collapsing keeps the words: runs are neither split nor joined, and none is lost or added. */
  lemma {:induction false} CollapseKeepsWords(s: string)
    ensures Words(Collapse(s)) == Words(s)
    decreases |s|
  {
    if s != [] {
      if Text.IsSpace(s[0]) {
        var t := Text.DropLeadingSpaces(s);
        CollapseSpaceRun(s, t);
        WordsAfterSpace(Collapse(t));
        CollapseKeepsWords(t);
        assert Text.DropLeadingSpaces(t) == t;
      } else {
        var w := LeadingWord(s);
        var u := s[|w|..];
        assert s == w + u;
        CollapseWordThenRest(s, w, u);
        WordsOfWordThen(w, u);
        WordsOfWordThen(w, Collapse(u));
        CollapseKeepsWords(u);
      }
    }
  }

  /** A word followed by nothing or by whitespace: the word comes first, then the words of the rest. */
  lemma {:induction false} WordsOfWordThen(w: string, c: string)
    requires w != [] && forall i :: 0 <= i < |w| ==> NotSpace(w[i])
    requires c == [] || Text.IsSpace(c[0])
    ensures Words(w + c) == [w] + Words(c)
  {
    var x := w + c;
    assert x[0] == w[0];
    assert Text.DropLeadingSpaces(x) == x;
    LeadingWordOf(w, c);
    assert x[|w|..] == c;
  }

  lemma {:induction false} LeadingWordOf(w: string, c: string)
    requires forall i :: 0 <= i < |w| ==> NotSpace(w[i])
    requires c == [] || Text.IsSpace(c[0])
    ensures LeadingWord(w + c) == w
    decreases |w|
  {
    if w == [] {
      assert w + c == c;
    } else {
      assert (w + c)[0] == w[0];
      assert (w + c)[1..] == w[1..] + c;
      LeadingWordOf(w[1..], c);
      assert w == [w[0]] + w[1..];
    }
  }

  lemma {:induction false} WordsAfterSpace(c: string)
    ensures Words([' '] + c) == Words(c)
  {
    assert ([' '] + c)[1..] == c;
    assert Text.DropLeadingSpaces([' '] + c) == Text.DropLeadingSpaces(c);
  }

  /** The case of a text starting with a word. */
  lemma {:induction false} TrimCollapseWordFirst(t: string)
    requires t != [] && NotSpace(t[0])
    ensures Text.Trim(Collapse(t)) == Join(Words(t))
    decreases |t|, 0
  {
    var w := LeadingWord(t);
    var u := t[|w|..];
    var u' := Text.DropLeadingSpaces(u);
    if u' == [] {
      LastWord(t, w, u);
    } else {
      TrimCollapseIsJoin(u');
      CollapseBetweenWords(t, w, u, u');
      WordsNonEmpty(u');
      WordsAfterWord(t);
      JoinAfterWord(Collapse(t), w, Collapse(u'), Words(u'));
    }
  }

  /** A word, one space and a text that trims to the join of `ws` trim to the join of the word and `ws`. */
  lemma {:induction false} JoinAfterWord(x: string, w: string, c: string, ws: seq<string>)
    requires w != [] && forall i :: 0 <= i < |w| ==> NotSpace(w[i])
    requires c != [] && NotSpace(c[0])
    requires x == w + [' '] + c
    requires Text.Trim(c) == Join(ws) && ws != []
    ensures Text.Trim(x) == Join([w] + ws)
  {
    TrimWordThen(w, c);
    assert ([w] + ws)[1..] == ws;
  }

  /** A text holding one word, possibly followed by whitespace, collapses and trims to that word. */
  lemma {:induction false} LastWord(t: string, w: string, u: string)
    requires t != [] && NotSpace(t[0])
    requires w == LeadingWord(t) && u == t[|w|..] && Text.DropLeadingSpaces(u) == []
    ensures Text.Trim(Collapse(t)) == Join(Words(t))
  {
    WordsAfterWord(t);
    assert Words([]) == [] && [w] + [] == [w];
    var tail := CollapseLastWord(t, w, u);
    TrimWordAlone(w, tail);
  }

  lemma {:induction false} CollapseLastWord(t: string, w: string, u: string) returns (tail: string)
    requires w == LeadingWord(t) && u == t[|w|..] && Text.DropLeadingSpaces(u) == []
    ensures tail == [] || tail == [' ']
    ensures Collapse(t) == w + tail
  {
    CollapseWordThenRest(t, w, u);
    if u == [] {
      tail := [];
    } else {
      CollapseSpaceRun(u, []);
      tail := [' '];
    }
    assert Collapse(u) == tail by {
      if u != [] {
        assert Collapse([]) == [];
      }
    }
  }

  lemma {:induction false} WordsNonEmpty(s: string)
    requires s != [] && NotSpace(s[0])
    ensures Words(s) != []
  {
    assert Text.DropLeadingSpaces(s) == s;
  }

  lemma {:induction false} CollapseWordThenRest(t: string, w: string, u: string)
    requires w == LeadingWord(t) && u == t[|w|..]
    ensures Collapse(t) == w + Collapse(u)
  {
    assert t == w + u;
    CollapseWord(w, u);
  }

  lemma {:induction false} CollapseBetweenWords(t: string, w: string, u: string, u': string)
    requires w == LeadingWord(t) && u == t[|w|..] && u != [] && Text.IsSpace(u[0]) && u' == Text.DropLeadingSpaces(u)
    ensures Collapse(t) == w + [' '] + Collapse(u')
  {
    CollapseWordThenRest(t, w, u);
    CollapseSpaceRun(u, u');
    AppendAssoc(w, [' '], Collapse(u'));
  }

  lemma {:induction false} CollapseSpaceRun(u: string, u': string)
    requires u != [] && Text.IsSpace(u[0]) && u' == Text.DropLeadingSpaces(u)
    ensures Collapse(u) == [' '] + Collapse(u')
  {
  }

  lemma {:induction false} WordsAfterWord(t: string)
    requires t != [] && NotSpace(t[0])
    ensures var w := LeadingWord(t);
      Words(t) == [w] + Words(Text.DropLeadingSpaces(t[|w|..]))
  {
    var w := LeadingWord(t);
    var u := t[|w|..];
    var u' := Text.DropLeadingSpaces(u);
    assert Text.DropLeadingSpaces(t) == t;
    assert Words(t) == [w] + Words(u);
    assert Text.DropLeadingSpaces(u') == u';
  }

  /** A word followed by at most one space trims to the word. */
  lemma {:induction false} TrimWordAlone(w: string, tail: string)
    requires w != [] && forall i :: 0 <= i < |w| ==> NotSpace(w[i])
    requires tail == [] || tail == [' ']
    ensures Text.Trim(w + tail) == w
  {
    var x := w + tail;
    assert x[0] == w[0];
    assert Text.DropLeadingSpaces(x) == x;
    assert NotSpace(w[|w| - 1]);
    assert Text.DropTrailingSpaces(w) == w;
    if tail != [] {
      assert Text.IsSpace(x[|x| - 1]);
      assert x[..|x| - 1] == w;
    } else {
      assert x == w;
    }
  }

  /** A word, a space and a text starting with a non-space trim to the word, the space and the trimmed text. */
  lemma {:induction false} TrimWordThen(w: string, x: string)
    requires w != [] && forall i :: 0 <= i < |w| ==> NotSpace(w[i])
    requires x != [] && NotSpace(x[0])
    ensures Text.Trim(w + [' '] + x) == w + " " + Text.Trim(x)
  {
    assert Text.DropLeadingSpaces(w + [' '] + x) == w + [' '] + x;
    assert Text.DropLeadingSpaces(x) == x;
    DropTrailingAfter(w + [' '], x);
  }

  /**
   * `formatMessageContent`: the text with its image tokens removed, its whitespace runs
   * collapsed and its ends trimmed.
   */
  function FormatMessageContent(content: string): (r: string)
    ensures r == [] || (!Text.IsSpace(r[0]) && !Text.IsSpace(r[|r| - 1]))
    ensures NoDoubleSpace(r)
    ensures forall i :: 0 <= i < |r| && Text.IsSpace(r[i]) ==> r[i] == ' '
    ensures Text.IsBlank(Strip(content, 0)) <==> r == []
    ensures r == Join(Words(Strip(content, 0)))
  {
    var stripped := Strip(content, 0);
    var c := Collapse(stripped);
    TrimOfCollapsed(c);
    CollapseKeepsBlank(stripped);
    TrimCollapseIsJoin(stripped);
    Text.Trim(c)
  }

  /** Collapsing keeps a text blank, or not blank: it keeps the non-whitespace characters. */
  lemma CollapseKeepsBlank(s: string)
    ensures Text.IsBlank(s) <==> Text.IsBlank(Collapse(s))
  {
    CollapseKeepsText(s);
    BlankIffNothingKept(Collapse(s));
    BlankIffNothingKept(s);
  }

  lemma {:induction false} BlankIffNothingKept(s: string)
    ensures Text.IsBlank(s) <==> Lists.Filter(s, NotSpace) == []
  {
    if !Text.IsBlank(s) {
      var i :| 0 <= i < |s| && !Text.IsSpace(s[i]);
      assert s[i] in s;
    }
  }

  /** A message with no image tokens and no whitespace to tidy is shown as written. */
  lemma PlainTextUnchanged(content: string)
    requires !Text.Contains(content, "![")
    requires forall i :: 0 <= i < |content| ==> NotSpace(content[i])
    ensures FormatMessageContent(content) == content
  {
    NoImageSyntax(content, 0);
    NoSpacesCollapseUnchanged(content);
  }

  lemma {:induction false} NoSpacesCollapseUnchanged(s: string)
    requires forall i :: 0 <= i < |s| ==> NotSpace(s[i])
    ensures Collapse(s) == s
    ensures Text.DropLeadingSpaces(s) == s && Text.DropTrailingSpaces(s) == s
    decreases |s|
  {
    if s != [] {
      NoSpacesCollapseUnchanged(s[1..]);
      assert s == [s[0]] + s[1..];
    }
  }

  // ---------------------------------------------------------------------------------------
  // The conversation

  /** A chat bubble; `kind` is 'user' or 'bot'. */
  datatype Message = Message(kind: string, content: string, error: bool)

  /** An entry of the transcript sent to the assistant; `role` is 'user' or 'assistant'. */
  datatype AiMessage = AiMessage(role: string, content: string)

  datatype ChatState = ChatState(messages: seq<Message>, input: string, isTyping: bool)

  const Greeting: string := "Hello! I'm your AI assistant. How can I help you with The Smith Agency CRM today?"
  const Apology: string := "Sorry, I encountered an error. Please try again."

  function InitialState(): (st: ChatState)
    ensures st.messages == [Message("bot", Greeting, false)] && st.input == [] && !st.isTyping
  {
    ChatState([Message("bot", Greeting, false)], "", false)
  }

  /** The first request the chat can send: the greeting as the assistant's turn, then the user's text. */
  lemma FirstTranscript(input: string)
    ensures Transcript(InitialState().messages, input) == [AiMessage("assistant", Greeting), AiMessage("user", input)]
  {
  }

  /** A first submission adds exactly the user's message after the greeting and asks with the two of them. */
  lemma FirstSubmit(input: string)
    requires !Text.IsBlank(input)
    ensures var (st, request) := Submit(InitialState().(input := input));
      && st.messages == [Message("bot", Greeting, false), Message("user", input, false)]
      && st.input == [] && st.isTyping
      && request == Some([AiMessage("assistant", Greeting), AiMessage("user", input)])
  {
    FirstTranscript(input);
  }

  function RoleOf(m: Message): (role: string)
    ensures role == "user" <==> m.kind == "user"
    ensures role == "user" || role == "assistant"
  {
    if m.kind == "user" then "user" else "assistant"
  }

  /** The request body: every earlier message with its role, then the new input as the user's. */
  function Transcript(messages: seq<Message>, input: string): (r: seq<AiMessage>)
    ensures |r| == |messages| + 1
    ensures forall i :: 0 <= i < |messages| ==>
              r[i].content == messages[i].content && (r[i].role == "user" <==> messages[i].kind == "user")
    ensures forall i :: 0 <= i < |messages| ==> r[i].role == "user" || r[i].role == "assistant"
    ensures r[|messages|] == AiMessage("user", input)
  {
    seq(|messages|, i requires 0 <= i < |messages| => AiMessage(RoleOf(messages[i]), messages[i].content))
    + [AiMessage("user", input)]
  }

  /**
   * The synchronous part of `handleSubmit`: a blank input does nothing; otherwise the input
   * becomes a user message, the box is cleared, and the transcript to send is returned.
   */
  function Submit(st: ChatState): (r: (ChatState, Option<seq<AiMessage>>))
    ensures Text.IsBlank(st.input) ==> r == (st, None)
    ensures !Text.IsBlank(st.input) ==>
              r.0 == ChatState(st.messages + [Message("user", st.input, false)], "", true)
    ensures !Text.IsBlank(st.input) ==> r.1 == Some(Transcript(st.messages, st.input))
  {
    if Text.Trim(st.input) == [] then (st, None)
    else
      (ChatState(st.messages + [Message("user", st.input, false)], "", true),
       Some(Transcript(st.messages, st.input)))
  }

  /** The end of `handleSubmit`: the reply, or the apology flagged as an error, is appended. */
  function Reply(st: ChatState, reply: Option<string>): (r: ChatState)
    ensures |r.messages| == |st.messages| + 1 && r.messages[..|st.messages|] == st.messages
    ensures r.messages[|st.messages|].kind == "bot"
    ensures reply.Some? ==> r.messages[|st.messages|] == Message("bot", reply.value, false)
    ensures reply.None? ==> r.messages[|st.messages|] == Message("bot", Apology, true)
    ensures r.input == st.input && !r.isTyping
  {
    var m := match reply
      case Some(c) => Message("bot", c, false)
      case None => Message("bot", Apology, true);
    ChatState(st.messages + [m], st.input, false)
  }

  /**
   * A whole exchange from a non-blank input: two messages are added, the user's then the
   * assistant's, and the transcript sent holds exactly the conversation then on screen.
   */
  lemma ExchangeAppendsTwo(st: ChatState, reply: Option<string>)
    requires !Text.IsBlank(st.input)
    ensures var (mid, sent) := Submit(st);
            var after := Reply(mid, reply);
            |after.messages| == |st.messages| + 2
            && after.messages[..|st.messages|] == st.messages
            && after.messages[|st.messages|] == Message("user", st.input, false)
            && after.messages[|st.messages| + 1].kind == "bot"
            && after.input == [] && !after.isTyping
            && sent.Some? && |sent.value| == |mid.messages|
            && forall i :: 0 <= i < |mid.messages| ==> sent.value[i].content == mid.messages[i].content
  {
    var (mid, sent) := Submit(st);
    var after := Reply(mid, reply);
    assert after.messages[..|st.messages|] == mid.messages[..|st.messages|];
  }
}
