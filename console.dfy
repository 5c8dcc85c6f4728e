/**
 * The console report of TextSimilarityRanker: `printTopRankedMatches` and
 * the `processDirectory` step that feeds it. The printed lines are returned
 * as values instead of being written to standard output.
 */
module RankerConsole {
  import opened Wrappers
  import opened Text
  import opened Domain
  import opened Ingestion
  import opened Similarity
  import opened TopK

  /** `DEFAULT_TOP_K_RESULTS` */
  const DefaultTopK := 5

  const SnippetLimit := 100
  const SnippetKeep := 97
  const Ellipsis := "..."
  const Header := "\n--- TOP RANKED MATCHES ---"
  const Footer := "--------------------------"

  /** A line of the report: a banner, or one `[Score: …] (Source: …) …` line with its three fields. */
  datatype ConsoleLine = Banner(text: string) | Match(score: real, source: string, snippet: string)

  /** The text with its line breaks turned into spaces, as one line. */
  function Flatten(text: string): (r: string)
    ensures |r| == |text| && '\n' !in r
    ensures forall i :: 0 <= i < |text| ==> r[i] == if text[i] == '\n' then ' ' else text[i]
  {
    ReplaceChar(text, '\n', ' ')
  }

  /**
   * The snippet of a segment: its text on one line, cut to its first 97
   * characters followed by "..." when longer than 100.
   */
  method Snippet(text: string) returns (snippet: string)
    ensures snippet == ShortSnippet(text)
  {
    snippet := ReplaceChar(text, '\n', ' ');
    if |snippet| > SnippetLimit {
      snippet := snippet[..SnippetKeep] + Ellipsis;
    }
  }

  /** The reference definition of the snippet. */
  function ShortSnippet(text: string): string
  {
    var flat := Flatten(text);
    if |flat| > SnippetLimit then flat[..SnippetKeep] + Ellipsis else flat
  }

  /** A snippet is one line of at most 100 characters; a text of 100 or fewer is kept whole, a longer one is cut to exactly 100. */
  lemma SnippetShape(text: string)
    ensures var r := ShortSnippet(text);
            |r| <= SnippetLimit && '\n' !in r &&
            (|text| <= SnippetLimit ==> r == Flatten(text)) &&
            (|text| > SnippetLimit ==> |r| == SnippetLimit && r == Flatten(text)[..SnippetKeep] + Ellipsis)
  {
    var r := ShortSnippet(text);
    if |text| > SnippetLimit {
      assert forall i :: 0 <= i < SnippetKeep ==> r[i] == Flatten(text)[i];
      assert r[SnippetKeep..] == Ellipsis;
      assert '\n' !in Ellipsis;
    }
  }

  /** The report line for one selected entry. */
  function MatchLine(e: Entry): ConsoleLine
  {
    Match(e.score, DisplayName(e.segment), ShortSnippet(e.segment.text))
  }

  function MatchLines(es: seq<Entry>): (lines: seq<ConsoleLine>)
    ensures |lines| == |es|
    ensures forall i :: 0 <= i < |es| ==> lines[i] == MatchLine(es[i])
  {
    if es == [] then [] else [MatchLine(es[0])] + MatchLines(es[1..])
  }

  lemma MatchLinesSnoc(es: seq<Entry>, i: nat)
    requires i < |es|
    ensures MatchLines(es[..i + 1]) == MatchLines(es[..i]) + [MatchLine(es[i])]
  {
    var a, b := MatchLines(es[..i + 1]), MatchLines(es[..i]) + [MatchLine(es[i])];
    assert |a| == |b|;
    forall j | 0 <= j < |a|
      ensures a[j] == b[j]
    {
      if j < i {
        assert es[..i + 1][j] == es[..i][j];
      }
    }
  }

  /** The whole report for the ranked map read in the order `order`. */
  function Report(m: map<Segment, real>, order: seq<Segment>, limit: nat): seq<ConsoleLine>
    requires IsEnumeration(order, m.Keys)
  {
    [Banner(Header)] + MatchLines(SelectTop(m, order, limit)) + [Banner(Footer)]
  }

  /**
   * The report holds the header, at most `limit` match lines with
   * non-increasing scores taken from the map, and the footer; each match
   * line names its segment's file (or "Unknown") and a snippet of at most 100
   * characters on one line.
   */
  lemma ReportShape(m: map<Segment, real>, order: seq<Segment>, limit: nat)
    requires IsEnumeration(order, m.Keys)
    ensures var lines := Report(m, order, limit);
            |lines| == Min(limit, |m|) + 2 &&
            lines[0] == Banner(Header) && lines[|lines| - 1] == Banner(Footer) &&
            (forall i :: 1 <= i < |lines| - 1 ==> lines[i].Match?) &&
            (forall i, j :: 1 <= i < j < |lines| - 1 ==> lines[i].score >= lines[j].score) &&
            (forall i :: 1 <= i < |lines| - 1 ==>
               exists s :: s in m && lines[i] == Match(m[s], DisplayName(s), ShortSnippet(s.text))) &&
            (forall i :: 1 <= i < |lines| - 1 ==> |lines[i].snippet| <= SnippetLimit && '\n' !in lines[i].snippet)
  {
    SelectTopEntries(m, order, limit);
    FramedLinesShape(m, SelectTop(m, order, limit));
  }

  /** The report around any descending run of entries taken from the map. */
  lemma FramedLinesShape(m: map<Segment, real>, es: seq<Entry>)
    requires Descending(es)
    requires forall e :: e in es ==> e.segment in m && e.score == m[e.segment]
    ensures var lines := [Banner(Header)] + MatchLines(es) + [Banner(Footer)];
            |lines| == |es| + 2 &&
            lines[0] == Banner(Header) && lines[|lines| - 1] == Banner(Footer) &&
            (forall i :: 1 <= i < |lines| - 1 ==> lines[i].Match?) &&
            (forall i, j :: 1 <= i < j < |lines| - 1 ==> lines[i].score >= lines[j].score) &&
            (forall i :: 1 <= i < |lines| - 1 ==>
               exists s :: s in m && lines[i] == Match(m[s], DisplayName(s), ShortSnippet(s.text))) &&
            (forall i :: 1 <= i < |lines| - 1 ==> |lines[i].snippet| <= SnippetLimit && '\n' !in lines[i].snippet)
  {
    var lines := [Banner(Header)] + MatchLines(es) + [Banner(Footer)];
    var ml := MatchLines(es);
    MatchLinesShape(m, es);
    FramedIndex(ml);
    forall i | 1 <= i < |lines| - 1
      ensures lines[i].Match? && |lines[i].snippet| <= SnippetLimit && '\n' !in lines[i].snippet
      ensures exists s :: s in m && lines[i] == Match(m[s], DisplayName(s), ShortSnippet(s.text))
    {
      assert lines[i] == ml[i - 1];
    }
    forall i, j | 1 <= i < j < |lines| - 1
      ensures lines[i].score >= lines[j].score
    {
      assert lines[i] == ml[i - 1];
      assert lines[j] == ml[j - 1];
    }
  }

  /** Line `i` of the framed report is match line `i - 1`. */
  lemma FramedIndex(ml: seq<ConsoleLine>)
    ensures var lines := [Banner(Header)] + ml + [Banner(Footer)];
            |lines| == |ml| + 2 && forall i :: 1 <= i <= |ml| ==> lines[i] == ml[i - 1]
  {
  }

  /** The match lines of a descending run of entries taken from the map, one per entry. */
  lemma MatchLinesShape(m: map<Segment, real>, es: seq<Entry>)
    requires Descending(es)
    requires forall e :: e in es ==> e.segment in m && e.score == m[e.segment]
    ensures var ml := MatchLines(es);
            (forall i :: 0 <= i < |ml| ==> ml[i].Match?) &&
            (forall i, j :: 0 <= i < j < |ml| ==> ml[i].score >= ml[j].score) &&
            (forall i :: 0 <= i < |ml| ==>
               exists s :: s in m && ml[i] == Match(m[s], DisplayName(s), ShortSnippet(s.text))) &&
            (forall i :: 0 <= i < |ml| ==> |ml[i].snippet| <= SnippetLimit && '\n' !in ml[i].snippet)
  {
    var ml := MatchLines(es);
    forall i | 0 <= i < |ml|
      ensures exists s :: s in m && ml[i] == Match(m[s], DisplayName(s), ShortSnippet(s.text))
      ensures |ml[i].snippet| <= SnippetLimit && '\n' !in ml[i].snippet
    {
      assert es[i] in es;
      SnippetShape(es[i].segment.text);
    }
  }

  /** printTopRankedMatches: the header, one line per selected entry, the footer. */
  method PrintTopRankedMatches(m: map<Segment, real>, limit: nat) returns (lines: seq<ConsoleLine>, ghost order: seq<Segment>)
    ensures IsEnumeration(order, m.Keys)
    ensures lines == Report(m, order, limit)
  {
    var keys := EnumerateKeys(m);
    order := keys;
    var selected := SelectTop(m, keys, limit);
    lines := [Banner(Header)];
    for i := 0 to |selected|
      invariant lines == [Banner(Header)] + MatchLines(selected[..i])
    {
      var e := selected[i];
      var snippet := Snippet(e.segment.text);
      MatchLinesSnoc(selected, i);
      AppendAssociative([Banner(Header)], MatchLines(selected[..i]), [MatchLine(e)]);
      lines := lines + [Match(e.score, DisplayName(e.segment), snippet)];
    }
    assert selected[..|selected|] == selected;
    lines := lines + [Banner(Footer)];
  }

  /**
   * processDirectory: fetch the corpus; an empty one prints nothing (only a
   * log warning), otherwise rank it and print the top five. An exception of
   * the fetch or of the embedding calls leaves the method.
   */
  method ProcessDirectory(env: Environment, path: string, query: string)
    returns (r: Result<seq<ConsoleLine>, Failure>, ghost order: seq<Segment>)
    ensures Corpus(env, path).Err? ==> r == Err(Corpus(env, path).error)
    ensures Corpus(env, path) == Ok([]) ==> r == Ok([])
    ensures Corpus(env, path).Ok? && Corpus(env, path).value != [] && Ranking(env, query, Corpus(env, path).value).Err? ==>
              r == Err(Ranking(env, query, Corpus(env, path).value).error)
    ensures Corpus(env, path).Ok? && Corpus(env, path).value != [] && Ranking(env, query, Corpus(env, path).value).Ok? ==>
              var m := Ranking(env, query, Corpus(env, path).value).value;
              IsEnumeration(order, m.Keys) && r == Ok(Report(m, order, DefaultTopK))
  {
    order := [];
    var fetched := FetchSegments(env, path);
    if fetched.Err? {
      return Err(fetched.error), order;
    }
    var segments := fetched.value;
    if |segments| == 0 {
      return Ok([]), order;
    }
    var scores := RankSegments(env, query, segments);
    match scores {
      case Err(e) =>
        r := Err(e);
      case Ok(m) =>
        var lines;
        lines, order := PrintTopRankedMatches(m, DefaultTopK);
        r := Ok(lines);
    }
  }
}
