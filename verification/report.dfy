/**
 `LogNotDone`: the report of what a wait group is still waiting on.  Nothing at all
 when no key is registered; otherwise a header line followed by one line per
 registered key with its entry.  Go leaves the order of map iteration unspecified,
 so the entry lines come in an order the model does not fix.
 */
module Report {
  import opened Wrappers
  import opened WaitGroup
  import opened Decimal

  /** One logged line, before formatting. */
  datatype Line = Header | Entry(key: string, count: int)

  const HeaderText: string := "\nWaitGroup currently waiting on:\n"
  const EntrySuffix: string := " outstanding)\n"

  /**
   The body lines name each key of `calls` exactly once, each with its entry, and
   nothing else.
   */
  ghost predicate ListsExactly(body: seq<Line>, calls: map<string, int>)
  {
    && |body| == |calls|
    && (forall j :: 0 <= j < |body| ==>
          body[j].Entry? && body[j].key in calls && body[j].count == calls[body[j].key])
    && (forall j, l :: 0 <= j < l < |body| ==> body[j] != body[l])
    && (forall k :: k in calls ==> Entry(k, calls[k]) in body)
  }

  /** The lines `LogNotDone` logs for `s`, in some iteration order of its map. */
  method LogNotDone(s: State) returns (lines: seq<Line>)
    ensures |s.calls| == 0 <==> lines == []
    ensures |s.calls| > 0 ==> lines[0] == Header && ListsExactly(lines[1..], s.calls)
  {
    if |s.calls| == 0 {
      return [];
    }
    var body: seq<Line> := [];
    var rest := s.calls.Keys;
    while rest != {}
      invariant rest <= s.calls.Keys
      invariant |body| + |rest| == |s.calls|
      invariant forall j :: 0 <= j < |body| ==>
                  body[j].Entry? && body[j].key in s.calls && body[j].key !in rest
                  && body[j].count == s.calls[body[j].key]
      invariant forall j, l :: 0 <= j < l < |body| ==> body[j] != body[l]
      invariant forall k :: k in s.calls && k !in rest ==> Entry(k, s.calls[k]) in body
      decreases |rest|
    {
      var k :| k in rest;
      body := body + [Entry(k, s.calls[k])];
      rest := rest - {k};
    }
    lines := [Header] + body;
    assert lines[1..] == body;
  }

  /** The text of a line, as the format strings of `LogNotDone` print it. */
  function Render(line: Line): (r: string)
    ensures |r| > 0
    ensures r[0] == '\n' <==> line.Header?
  {
    match line
    case Header => HeaderText
    case Entry(key, n) => " " + key + " (" + IntToDecimal(n) + EntrySuffix
  }

  /** The last position of `c` in `s`, if any. */
  function LastIndexOf(s: string, c: char): (r: Option<nat>)
    ensures r.Some? ==> r.value < |s| && s[r.value] == c
    ensures r.Some? ==> forall j :: r.value < j < |s| ==> s[j] != c
    ensures r.None? ==> c !in s
    decreases |s|
  {
    if |s| == 0 then None
    else if s[|s| - 1] == c then Some(|s| - 1)
    else LastIndexOf(s[..|s| - 1], c)
  }

  /**
   Reads a logged line back.  The count is the text between the last " (" and the
   suffix, so a key may itself contain " (".
   */
  function ParseLine(text: string): Option<Line>
  {
    if text == HeaderText then Some(Header)
    else if |text| > |EntrySuffix| && text[0] == ' ' && text[|text| - |EntrySuffix|..] == EntrySuffix then
      var mid := text[1..|text| - |EntrySuffix|];
      match LastIndexOf(mid, '(')
      case None => None
      case Some(p) =>
        if p >= 1 && mid[p - 1] == ' ' then
          match ParseDecimal(mid[p + 1..])
          case None => None
          case Some(n) => Some(Entry(mid[..p - 1], n))
        else None
    else None
  }

  /** Characters appended after the last `c` do not move it. */
  lemma {:induction false} LastIndexOfAppend(s: string, t: string, c: char)
    requires c !in t
    ensures LastIndexOf(s + t, c) == LastIndexOf(s, c)
    decreases |t|
  {
    if |t| > 0 {
      assert (s + t)[|s + t| - 1] == t[|t| - 1] != c;
      assert (s + t)[..|s + t| - 1] == s + t[..|t| - 1];
      LastIndexOfAppend(s, t[..|t| - 1], c);
    } else {
      assert s + t == s;
    }
  }

  /** The " (" written before the count is the last "(" of the middle part. */
  lemma LastParenIsMarker(key: string, d: string)
    requires '(' !in d
    ensures LastIndexOf(key + " (" + d, '(') == Some(|key| + 1)
  {
    LastIndexOfAppend(key + " (", d, '(');
  }

  /** An entry line splits into its key, the count's text and the suffix. */
  lemma EntryMiddle(key: string, n: int)
    ensures var text := Render(Entry(key, n));
            && |text| > |EntrySuffix|
            && text[0] == ' '
            && text[|text| - |EntrySuffix|..] == EntrySuffix
            && text[1..|text| - |EntrySuffix|] == key + " (" + IntToDecimal(n)
  {
  }

  /** Every logged line can be read back: it carries its key and count unambiguously. */
  lemma RenderRoundTrip(line: Line)
    ensures ParseLine(Render(line)) == Some(line)
  {
    match line {
      case Header =>
      case Entry(key, n) =>
        var d := IntToDecimal(n);
        var text := Render(line);
        EntryMiddle(key, n);
        assert text[0] != HeaderText[0];
        var mid := text[1..|text| - |EntrySuffix|];
        var p := |key| + 1;
        LastParenIsMarker(key, d);
        assert mid[p - 1] == ' ';
        assert mid[..p - 1] == key;
        assert mid[p + 1..] == d;
        DecimalRoundTrip(n);
    }
  }

  /** Distinct lines never print the same text. */
  lemma RenderInjective(a: Line, b: Line)
    requires Render(a) == Render(b)
    ensures a == b
  {
    RenderRoundTrip(a);
    RenderRoundTrip(b);
  }
}
