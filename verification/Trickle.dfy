/**
 The candidates that `extract_trickle_candidates` takes from an offer, and the proof
 that the offer rewrites leave them alone.
 */
module Trickle {
  import opened Separators
  import opened PyText
  import opened Sdp

  datatype Candidate = Candidate(candidate: string, sdpMid: string, sdpMLineIndex: nat, ufrag: string)

  const MEDIA := "m="
  const MID := "a=mid:"
  const UFRAG := "a=ice-ufrag:"
  const CANDIDATE := "a=candidate:"

  datatype Scan = Scan(mline: int, mid: string, ufrag: string, out: seq<Candidate>)

  const START := Scan(-1, "0", "", [])

  function ScanLine(s: Scan, raw: string): Scan
    requires s.mline >= -1
  {
    var line := Strip(raw);
    if StartsWith(line, MEDIA) then s.(mline := s.mline + 1, mid := Decimal(s.mline + 1))
    else if StartsWith(line, MID) then s.(mid := Strip(line[|MID|..]))
    else if StartsWith(line, UFRAG) then s.(ufrag := Strip(line[|UFRAG|..]))
    else if StartsWith(line, CANDIDATE) && s.mline == 0 then
      s.(out := s.out + [Candidate(line[2..], s.mid, 0, s.ufrag)])
    else s
  }

  function ScanLines(s: Scan, lines: seq<string>): (r: Scan)
    requires s.mline >= -1
    ensures r.mline >= -1
    decreases |lines|
  {
    if lines == [] then s else ScanLine(ScanLines(s, lines[..|lines| - 1]), lines[|lines| - 1])
  }

  function Candidates(sdp: string): seq<Candidate> {
    ScanLines(START, SplitLines(sdp)).out
  }

  /** `extract_trickle_candidates`. */
  method ExtractTrickleCandidates(sdp: string) returns (out: seq<Candidate>)
    ensures out == Candidates(sdp)
  {
    out := [];
    var sdpMline, sdpMid, ufrag := -1, "0", "";
    var lines := SplitLines(sdp);
    var i := 0;
    while i < |lines|
      invariant 0 <= i <= |lines|
      invariant ScanLines(START, lines[..i]) == Scan(sdpMline, sdpMid, ufrag, out)
    {
      assert lines[..i + 1][..i] == lines[..i];
      var line := Strip(lines[i]);
      if StartsWith(line, MEDIA) {
        sdpMline := sdpMline + 1;
        sdpMid := Decimal(sdpMline);
      } else if StartsWith(line, MID) {
        sdpMid := Strip(line[|MID|..]);
      } else if StartsWith(line, UFRAG) {
        ufrag := Strip(line[|UFRAG|..]);
      } else if StartsWith(line, CANDIDATE) && sdpMline == 0 {
        var candNoPrefix := line[|"a="|..];
        out := out + [Candidate(candNoPrefix, sdpMid, 0, ufrag)];
      }
      i := i + 1;
    }
    assert lines[..i] == lines;
  }

  // ---- Which candidates: between the first and the second media line ----

  predicate IsMedia(raw: string) {
    StartsWith(Strip(raw), MEDIA)
  }

  function MediaCount(lines: seq<string>): nat
    decreases |lines|
  {
    if lines == [] then 0 else MediaCount(lines[..|lines| - 1]) + if IsMedia(lines[|lines| - 1]) then 1 else 0
  }

  /** The value of the last line with the given prefix, or a default. */
  function LastValue(lines: seq<string>, prefix: string, default: string): string
    decreases |lines|
  {
    if lines == [] then default
    else
      var line := Strip(lines[|lines| - 1]);
      if StartsWith(line, prefix) then Strip(line[|prefix|..]) else LastValue(lines[..|lines| - 1], prefix, default)
  }

  /** The lines behind the last media line. */
  function Section(lines: seq<string>): seq<string>
    decreases |lines|
  {
    if lines == [] || IsMedia(lines[|lines| - 1]) then []
    else Section(lines[..|lines| - 1]) + [lines[|lines| - 1]]
  }

  /** The lines of the first media section that hold a candidate. */
  function CandidateLines(lines: seq<string>): (js: seq<nat>)
    ensures forall k :: 0 <= k < |js| ==> js[k] < |lines|
    decreases |lines|
  {
    if lines == [] then []
    else
      var n := |lines| - 1;
      CandidateLines(lines[..n])
      + if StartsWith(Strip(lines[n]), CANDIDATE) && MediaCount(lines[..n]) == 1 then [n] else []
  }

  /** The mid that a media line stands for until a mid line says otherwise: its number. */
  function DefaultMid(lines: seq<string>): string {
    if MediaCount(lines) == 0 then "0" else Decimal(MediaCount(lines) - 1)
  }

  /** A candidate line with the mid of its own section so far, and the last ufrag of all lines so far. */
  function CandidateAt(lines: seq<string>, j: nat): Candidate
    requires j < |lines| && StartsWith(Strip(lines[j]), CANDIDATE)
  {
    var before := lines[..j];
    var mid := LastValue(Section(before), MID, DefaultMid(before));
    Candidate(Strip(lines[j])[2..], mid, 0, LastValue(before, UFRAG, ""))
  }

  /** A candidate line behind the first media line and before the second. */
  predicate IsTrickled(lines: seq<string>, j: nat) {
    j < |lines| && StartsWith(Strip(lines[j]), CANDIDATE) && MediaCount(lines[..j]) == 1
  }

  lemma PrefixOfPrefix(lines: seq<string>, n: nat, j: nat)
    requires j < n <= |lines|
    ensures lines[..n][..j] == lines[..j] && lines[..n][j] == lines[j]
  {
  }

  lemma {:induction false} CandidateLinesAscend(lines: seq<string>)
    ensures forall i, k :: 0 <= i < k < |CandidateLines(lines)| ==> CandidateLines(lines)[i] < CandidateLines(lines)[k]
    decreases |lines|
  {
    if lines != [] {
      CandidateLinesAscend(lines[..|lines| - 1]);
    }
  }

  /** The lines chosen are exactly those. */
  lemma {:induction false} CandidateLinesAreExact(lines: seq<string>, j: nat)
    ensures j in CandidateLines(lines) <==> IsTrickled(lines, j)
    decreases |lines|
  {
    if lines != [] {
      var n := |lines| - 1;
      CandidateLinesAreExact(lines[..n], j);
      if j < n {
        PrefixOfPrefix(lines, n, j);
      }
    }
  }

  lemma PrefixesDiffer(line: string)
    ensures StartsWith(line, MEDIA) ==>
              !StartsWith(line, MID) && !StartsWith(line, UFRAG) && !StartsWith(line, CANDIDATE)
    ensures StartsWith(line, MID) ==> !StartsWith(line, UFRAG) && !StartsWith(line, CANDIDATE)
    ensures StartsWith(line, UFRAG) ==> !StartsWith(line, CANDIDATE)
  {
    assert MEDIA[0] == 'm' && MID[0] == UFRAG[0] == CANDIDATE[0] == 'a';
    assert MID[2] == 'm' && UFRAG[2] == 'i' && CANDIDATE[2] == 'c';
  }

  ghost predicate MeansSection(s: Scan, lines: seq<string>) {
    && s.mline == MediaCount(lines) - 1
    && s.mid == LastValue(Section(lines), MID, DefaultMid(lines))
    && s.ufrag == LastValue(lines, UFRAG, "")
    && |s.out| == |CandidateLines(lines)|
  }

  lemma LastValueSnoc(lines: seq<string>, last: string, prefix: string, default: string)
    ensures LastValue(lines + [last], prefix, default)
         == var line := Strip(last);
            if StartsWith(line, prefix) then Strip(line[|prefix|..]) else LastValue(lines, prefix, default)
  {
    assert (lines + [last])[..|lines|] == lines;
  }

  lemma SectionStep(lines: seq<string>)
    requires lines != [] && !IsMedia(lines[|lines| - 1])
    ensures LastValue(Section(lines), MID, DefaultMid(lines))
         == var line := Strip(lines[|lines| - 1]);
            if StartsWith(line, MID) then Strip(line[|MID|..])
            else LastValue(Section(lines[..|lines| - 1]), MID, DefaultMid(lines[..|lines| - 1]))
  {
    var n := |lines| - 1;
    assert MediaCount(lines) == MediaCount(lines[..n]);
    LastValueSnoc(Section(lines[..n]), lines[n], MID, DefaultMid(lines));
  }

  lemma MeansSectionStep(s: Scan, lines: seq<string>)
    requires lines != [] && s.mline >= -1 && MeansSection(s, lines[..|lines| - 1])
    ensures MeansSection(ScanLine(s, lines[|lines| - 1]), lines)
  {
    var n := |lines| - 1;
    PrefixesDiffer(Strip(lines[n]));
    if !IsMedia(lines[n]) {
      SectionStep(lines);
    }
  }

  /** The scan's variables mean what they are called. */
  lemma {:induction false} ScanIsSection(lines: seq<string>)
    ensures MeansSection(ScanLines(START, lines), lines)
    decreases |lines|
  {
    if lines != [] {
      ScanIsSection(lines[..|lines| - 1]);
      MeansSectionStep(ScanLines(START, lines[..|lines| - 1]), lines);
    }
  }

  /**
   The candidates trickled are, in order, those of the first media section only, each with
   the mid and the ufrag in force at its line.
   */
  lemma {:induction false} CandidatesAreSection(lines: seq<string>, k: nat)
    requires k < |CandidateLines(lines)|
    ensures k < |ScanLines(START, lines).out|
    ensures var j := CandidateLines(lines)[k];
            IsTrickled(lines, j) && ScanLines(START, lines).out[k] == CandidateAt(lines, j)
    decreases |lines|
  {
    var n := |lines| - 1;
    var before := lines[..n];
    var j := CandidateLines(lines)[k];
    ScanIsSection(before);
    PrefixesDiffer(Strip(lines[n]));
    CandidateLinesAreExact(lines, j);
    assert j in CandidateLines(lines);
    if k < |CandidateLines(before)| {
      CandidatesAreSection(before, k);
      PrefixOfPrefix(lines, n, j);
    }
  }

  /** What a candidate says: the text behind "a=", section 0, its section's mid or else "0", and the last ufrag. */
  lemma CandidateText(lines: seq<string>, k: nat)
    requires k < |CandidateLines(lines)|
    ensures k < |ScanLines(START, lines).out|
    ensures var j, c := CandidateLines(lines)[k], ScanLines(START, lines).out[k];
            && Strip(lines[j]) == "a=" + c.candidate && "candidate:" <= c.candidate && c.sdpMLineIndex == 0
            && c.sdpMid == LastValue(Section(lines[..j]), "a=mid:", "0")
            && c.ufrag == LastValue(lines[..j], "a=ice-ufrag:", "")
  {
    CandidatesAreSection(lines, k);
    CandidateParts(Strip(lines[CandidateLines(lines)[k]]));
    DecimalReadsBack(0);
  }

  predicate IsMediaAt(lines: seq<string>, i: int) {
    0 <= i < |lines| && "m=" <= Strip(lines[i])
  }

  /** Line m is the only media line. */
  ghost predicate OnlyMedia(lines: seq<string>, m: nat) {
    IsMediaAt(lines, m) && forall i: nat :: IsMediaAt(lines, i) ==> i == m
  }

  lemma MediaAtLast(lines: seq<string>, i: nat)
    requires lines != []
    ensures var n := |lines| - 1;
            IsMediaAt(lines, i) <==> if i == n then IsMedia(lines[n]) else IsMediaAt(lines[..n], i)
  {
  }

  lemma {:induction false} CountIsOnly(lines: seq<string>)
    ensures MediaCount(lines) == 0 <==> forall i: nat :: !IsMediaAt(lines, i)
    ensures MediaCount(lines) == 1 <==> exists m: nat :: OnlyMedia(lines, m)
    decreases |lines|
  {
    if lines != [] {
      var n := |lines| - 1;
      CountIsOnly(lines[..n]);
      forall i: nat ensures IsMediaAt(lines, i) <==> if i == n then IsMedia(lines[n]) else IsMediaAt(lines[..n], i) {
        MediaAtLast(lines, i);
      }
      OnlyMediaLast(lines);
    }
  }

  lemma OnlyMediaLast(lines: seq<string>)
    requires lines != []
    requires var n := |lines| - 1;
             forall i: nat :: IsMediaAt(lines, i) <==> if i == n then IsMedia(lines[n]) else IsMediaAt(lines[..n], i)
    ensures var n := |lines| - 1;
            (exists m: nat :: OnlyMedia(lines, m))
            <==> if IsMedia(lines[n]) then forall i: nat :: !IsMediaAt(lines[..n], i)
                 else exists m: nat :: OnlyMedia(lines[..n], m)
  {
    var n := |lines| - 1;
    if IsMedia(lines[n]) {
      if forall i: nat :: !IsMediaAt(lines[..n], i) {
        assert OnlyMedia(lines, n);
      }
      if m: nat :| OnlyMedia(lines, m) {
        assert IsMediaAt(lines, n) && m == n;
      }
    } else {
      forall m: nat ensures OnlyMedia(lines, m) <==> OnlyMedia(lines[..n], m) {
      }
    }
  }

  /** A line is taken exactly if it is a candidate line with one media line before it, and only one. */
  lemma TakenIff(lines: seq<string>, j: nat)
    ensures j in CandidateLines(lines)
       <==> && j < |lines| && "a=candidate:" <= Strip(lines[j])
            && exists m: nat :: OnlyMedia(lines[..j], m)
  {
    CandidateLinesAreExact(lines, j);
    if j < |lines| {
      CountIsOnly(lines[..j]);
    }
  }

  lemma CandidateParts(line: string)
    requires StartsWith(line, CANDIDATE)
    ensures |line| >= 2 && line == "a=" + line[2..] && "candidate:" <= line[2..]
  {
    assert CANDIDATE == "a=" + "candidate:";
    assert line[..12] == CANDIDATE;
    assert line[2..][..10] == line[..12][2..];
  }

  // ---- The offer rewrites leave the candidates alone ----

  predicate IsIdle(raw: string) {
    var line := Strip(raw);
    !StartsWith(line, MEDIA) && !StartsWith(line, MID) && !StartsWith(line, UFRAG) && !StartsWith(line, CANDIDATE)
  }

  lemma {:induction false} ScanConcat(s: Scan, a: seq<string>, b: seq<string>)
    requires s.mline >= -1
    ensures ScanLines(s, a + b) == ScanLines(ScanLines(s, a), b)
    decreases |b|
  {
    if b == [] {
      assert a + b == a;
    } else {
      ScanConcat(s, a, b[..|b| - 1]);
      assert (a + b)[..|a + b| - 1] == a + b[..|b| - 1];
    }
  }

  lemma ScanIdle(s: Scan, line: string)
    requires s.mline >= -1 && IsIdle(line)
    ensures ScanLines(s, [line]) == s
  {
    assert [line][..0] == [];
    assert ScanLines(s, []) == s;
  }

  /** The scan of a text, from any point on. */
  function ScanText(s: Scan, text: string): (r: Scan)
    requires s.mline >= -1
    ensures r.mline >= -1
  {
    ScanLines(s, SplitLines(text))
  }

  lemma ScanAtCrlf(s: Scan, a: string, b: string)
    requires s.mline >= -1
    ensures ScanText(s, a + CRLF + b) == ScanText(ScanText(s, a + CRLF), b)
  {
    SplitLinesAtCrlf(a, b);
    ScanConcat(s, SplitLines(a + CRLF), SplitLines(b));
  }

  ghost predicate AllIdle(lines: seq<string>) {
    forall k :: 0 <= k < |lines| ==> IsIdle(lines[k])
  }

  lemma {:induction false} ScanIdleLines(s: Scan, lines: seq<string>)
    requires s.mline >= -1 && AllIdle(lines)
    ensures ScanLines(s, lines) == s
    decreases |lines|
  {
    if lines != [] {
      ScanIdleLines(s, lines[..|lines| - 1]);
      assert IsIdle(lines[|lines| - 1]);
    }
  }

  lemma ScanIdleText(s: Scan, text: string)
    requires s.mline >= -1 && AllIdle(SplitLines(text))
    ensures ScanText(s, text + CRLF) == s && ScanText(s, text) == s
  {
    ScanIdleLines(s, SplitLines(text));
    ScanLastCrlf(s, text);
  }

  lemma OneIdleLine(line: string)
    requires IsIdle(line) && NoBreaks(line)
    ensures AllIdle(SplitLines(line))
  {
    SplitLinesOfOne(line);
  }

  lemma ScanLastCrlf(s: Scan, a: string)
    requires s.mline >= -1
    ensures ScanText(s, a + CRLF) == ScanText(s, a)
  {
    SplitLinesBeforeLastCrlf(a);
    ScanConcat(s, SplitLines(a), [""]);
    ScanIdle(ScanText(s, a), "");
  }

  lemma SctpmapLineIsIdle()
    ensures IsIdle(SCTPMAP_LINE) && NoBreaks(SCTPMAP_LINE)
  {
    assert SCTPMAP <= SCTPMAP_LINE && SCTPMAP[2] == 's';
    RStripKeepsPrefix(SCTPMAP_LINE, SCTPMAP);
  }

  lemma StrippedIsIdle(line: string)
    requires IsStripped(line)
    ensures IsIdle(line)
  {
    var p := if StartsWith(line, SHA384) then SHA384 else SHA512;
    assert line[0] == 'a' && SHA384[2] == 'f' && SHA512[2] == 'f';
    RStripKeepsPrefix(line, p);
  }

  lemma {:induction false} InjectingKeepsScan(s: Scan, parts: seq<string>)
    requires s.mline >= -1 && parts != []
    ensures ScanText(s, Join(parts, PORT_LINE)) == ScanText(s, Join(parts, PORT_LINE + SCTPMAP_LINE + CRLF))
    decreases |parts|
  {
    if |parts| > 1 {
      var x, after := parts[0] + SCTP_PORT, PORT_LINE + SCTPMAP_LINE + CRLF;
      var y, z := Join(parts[1..], PORT_LINE), Join(parts[1..], after);
      assert parts[0] + PORT_LINE + y == x + CRLF + y;
      ScanAtCrlf(s, x, y);
      Regroup(parts[0], SCTP_PORT, CRLF, SCTPMAP_LINE, z);
      ScanAtCrlf(s, x, SCTPMAP_LINE + CRLF + z);
      var t := ScanText(s, x + CRLF);
      ScanAtCrlf(t, SCTPMAP_LINE, z);
      SctpmapLineIsIdle();
      OneIdleLine(SCTPMAP_LINE);
      ScanIdleText(t, SCTPMAP_LINE);
      InjectingKeepsScan(t, parts[1..]);
    }
  }

  /** Injecting the sctpmap line changes no candidate, whatever the offer. */
  lemma InjectKeepsCandidates(sdp: string)
    ensures Candidates(InjectSctpmap(sdp).0) == Candidates(sdp)
  {
    InjectCases(sdp);
    JoinSplit(sdp, PORT_LINE);
    InjectingKeepsScan(START, Split(sdp, PORT_LINE));
  }

  /** Whatever `splitlines` makes of the stripped lines, none of it matters to the scan. */
  ghost predicate StrippedAreIdle(lines: seq<string>) {
    forall k :: 0 <= k < |lines| && IsStripped(lines[k]) ==> AllIdle(SplitLines(lines[k]))
  }

  lemma {:induction false} StrippingKeepsScan(s: Scan, lines: seq<string>)
    requires s.mline >= -1 && StrippedAreIdle(lines)
    ensures ScanText(s, Join(lines, CRLF)) == ScanText(s, Join(Kept(lines), CRLF))
    decreases |lines|
  {
    if |lines| == 1 {
      StrippingOneKeepsScan(s, lines[0]);
      assert lines == [lines[0]];
    } else if |lines| > 1 {
      var rest := lines[1..];
      StrippingKeepsScan(ScanText(s, lines[0] + CRLF), rest);
      StrippingStep(s, lines[0], Join(rest, CRLF), Kept(rest));
    }
  }

  lemma StrippingStep(s: Scan, line: string, y: string, kept: seq<string>)
    requires s.mline >= -1 && (IsStripped(line) ==> AllIdle(SplitLines(line)))
    requires ScanText(ScanText(s, line + CRLF), y) == ScanText(ScanText(s, line + CRLF), Join(kept, CRLF))
    ensures ScanText(s, line + CRLF + y) == ScanText(s, Join((if IsStripped(line) then [] else [line]) + kept, CRLF))
  {
    ScanAtCrlf(s, line, y);
    if IsStripped(line) {
      ScanIdleText(s, line);
      assert [] + kept == kept;
    } else if kept == [] {
      ScanLastCrlf(s, line);
      assert [line] + kept == [line];
    } else {
      ScanAtCrlf(s, line, Join(kept, CRLF));
      assert ([line] + kept)[1..] == kept;
    }
  }

  lemma StrippingOneKeepsScan(s: Scan, line: string)
    requires s.mline >= -1 && (IsStripped(line) ==> AllIdle(SplitLines(line)))
    ensures ScanText(s, line) == ScanText(s, Join(Kept([line]), CRLF))
  {
    assert [line][1..] == [];
    if IsStripped(line) {
      ScanIdleText(s, line);
      assert Kept([line]) == [];
    } else {
      assert Kept([line]) == [line];
    }
  }

  lemma {:induction false} WithSctpmapFrom(lines: seq<string>, line: string)
    requires line in WithSctpmap(lines)
    ensures line == SCTPMAP_LINE || line in lines
    decreases |lines|
  {
    if |lines| > 1 && line in WithSctpmap(lines[1..]) {
      WithSctpmapFrom(lines[1..], line);
    }
  }

  /**
   Patching an offer changes no candidate, as long as no stripped line carries a media, mid, ufrag
   or candidate line of its own behind one of the breaks that only `splitlines` sees.
   */
  lemma PatchingKeepsCandidates(sdp: string)
    requires StrippedAreIdle(Split(sdp, CRLF))
    ensures Candidates(ApplyOfferPatches(sdp).0) == Candidates(sdp)
  {
    var injected := InjectSctpmap(sdp).0;
    var lines := Split(injected, CRLF);
    InjectKeepsCandidates(sdp);
    InjectIsLineWise(sdp);
    SctpmapLineFacts();
    forall k | 0 <= k < |lines| && IsStripped(lines[k]) ensures AllIdle(SplitLines(lines[k])) {
      if !SomeContains(Split(sdp, CRLF), SCTPMAP) {
        WithSctpmapFrom(Split(sdp, CRLF), lines[k]);
      }
    }
    StrippingKeepsScan(START, lines);
    JoinSplit(injected, CRLF);
    StripIsJoinKept(injected);
  }

  /** Every line break of the text is half of a CRLF. */
  ghost predicate OnlyCrlf(text: string) {
    forall i :: 0 <= i < |text| && IsLineBreak(text[i]) ==> OccursAt(text, CRLF, i) || OccursAt(text, CRLF, i - 1)
  }

  lemma CrlfAt(text: string, i: int)
    ensures OccursAt(text, CRLF, i) ==> text[i] == '\r' && text[i + 1] == '\n'
  {
    if OccursAt(text, CRLF, i) {
      assert text[i] == text[i..i + 2][0] && text[i + 1] == text[i..i + 2][1];
    }
  }

  lemma OnlyCrlfBehind(text: string, i: nat)
    requires OnlyCrlf(text) && OccursAt(text, CRLF, i)
    ensures OnlyCrlf(text[i + 2..])
  {
    var rest := text[i + 2..];
    CrlfAt(text, i);
    CrlfAt(text, i + 1);
    forall j | 0 <= j < |rest| && IsLineBreak(rest[j]) ensures OccursAt(rest, CRLF, j) || OccursAt(rest, CRLF, j - 1) {
      assert rest[j] == text[i + 2 + j];
      OccursInSuffix(text, CRLF, i + 2, j);
      if j > 0 {
        OccursInSuffix(text, CRLF, i + 2, j - 1);
      }
    }
  }

  lemma FreeOfCrlfIsWhole(text: string, end: nat)
    requires OnlyCrlf(text) && end <= |text| && forall j :: 0 <= j < end ==> !OccursAt(text, CRLF, j)
    ensures NoBreaks(text[..end])
  {
    forall j | 0 <= j < end ensures !IsLineBreak(text[j]) {
      assert !OccursAt(text, CRLF, j) && !OccursAt(text, CRLF, j - 1);
    }
  }

  /** Lines cut at CRLF hold no other break if the text holds none. */
  lemma {:induction false} OnlyCrlfIsWhole(text: string, line: string)
    requires OnlyCrlf(text) && line in Split(text, CRLF)
    ensures NoBreaks(line)
    decreases |text|
  {
    var i := Find(text, CRLF, 0);
    if i < 0 {
      FreeOfCrlfIsWhole(text, |text|);
      assert text[..|text|] == text;
    } else if line in Split(text[i + 2..], CRLF) {
      OnlyCrlfBehind(text, i);
      OnlyCrlfIsWhole(text[i + 2..], line);
    } else {
      FreeOfCrlfIsWhole(text, i);
    }
  }

  /** An offer whose only line breaks are CRLFs keeps its candidates. */
  lemma PatchingKeepsCrlfCandidates(sdp: string)
    requires OnlyCrlf(sdp)
    ensures Candidates(ApplyOfferPatches(sdp).0) == Candidates(sdp)
  {
    var lines := Split(sdp, CRLF);
    forall k | 0 <= k < |lines| && IsStripped(lines[k]) ensures AllIdle(SplitLines(lines[k])) {
      OnlyCrlfIsWhole(sdp, lines[k]);
      StrippedIsIdle(lines[k]);
      OneIdleLine(lines[k]);
    }
    PatchingKeepsCandidates(sdp);
  }

  // ---- No less will do ----

  lemma {:induction false} CountsMedia(lines: seq<string>, k: nat)
    requires k < |lines| && IsMedia(lines[k])
    ensures MediaCount(lines) > 0
    decreases |lines|
  {
    if k < |lines| - 1 {
      CountsMedia(lines[..|lines| - 1], k);
    }
  }

  lemma {:induction false} ValueIsFixed(lines: seq<string>, k: nat, prefix: string, a: string, b: string)
    requires k < |lines| && StartsWith(Strip(lines[k]), prefix)
    ensures LastValue(lines, prefix, a) == LastValue(lines, prefix, b)
    decreases |lines|
  {
    if k < |lines| - 1 {
      ValueIsFixed(lines[..|lines| - 1], k, prefix, a, b);
    }
  }

  lemma {:induction false} ScanInSection(s: Scan, lines: seq<string>)
    requires s.mline >= -1
    ensures var r := ScanLines(s, lines);
            && r.mline == s.mline + MediaCount(lines)
            && r.ufrag == LastValue(lines, UFRAG, s.ufrag)
            && (MediaCount(lines) == 0 ==> r.mid == LastValue(lines, MID, s.mid))
            && |r.out| >= |s.out|
    decreases |lines|
  {
    if lines != [] {
      ScanInSection(s, lines[..|lines| - 1]);
      PrefixesDiffer(Strip(lines[|lines| - 1]));
    }
  }

  lemma {:induction false} OutGrows(s: Scan, lines: seq<string>, k: nat)
    requires s.mline == 0 && MediaCount(lines) == 0
    requires k < |lines| && StartsWith(Strip(lines[k]), CANDIDATE)
    ensures |ScanLines(s, lines).out| > |s.out|
    decreases |lines|
  {
    var before, last := lines[..|lines| - 1], lines[|lines| - 1];
    ScanInSection(s, before);
    PrefixesDiffer(Strip(last));
    if k < |before| {
      OutGrows(s, before, k);
    }
  }

  lemma BusyLineShows(lines: seq<string>, k: nat) returns (s: Scan)
    requires k < |lines| && !IsIdle(lines[k])
    ensures s.mline >= -1 && ScanLines(s, lines) != s
  {
    var mid, ufrag := LastValue(lines, MID, ""), LastValue(lines, UFRAG, "");
    s := Scan(0, mid + "x", ufrag + "x", []);
    ScanInSection(s, lines);
    if IsMedia(lines[k]) {
      CountsMedia(lines, k);
    } else if MediaCount(lines) == 0 {
      if StartsWith(Strip(lines[k]), MID) {
        ValueIsFixed(lines, k, MID, "", s.mid);
      } else if StartsWith(Strip(lines[k]), UFRAG) {
        ValueIsFixed(lines, k, UFRAG, "", s.ufrag);
      } else {
        OutGrows(s, lines, k);
      }
    }
  }

  /** A stretch of text can be left out anywhere without a trace exactly when all its lines are idle. */
  lemma NeutralIff(text: string)
    ensures AllIdle(SplitLines(text)) <==> forall s: Scan :: s.mline >= -1 ==> ScanText(s, text) == s
  {
    var lines := SplitLines(text);
    forall s: Scan | s.mline >= -1 && AllIdle(lines) ensures ScanText(s, text) == s {
      ScanIdleLines(s, lines);
    }
    if k :| 0 <= k < |lines| && !IsIdle(lines[k]) {
      var s := BusyLineShows(lines, k);
      assert ScanText(s, text) != s;
    }
  }

  lemma StartsStripped(line: string)
    requires StartsWith(line, CANDIDATE)
    ensures StartsWith(Strip(line), CANDIDATE) && !IsMedia(line)
  {
    assert line[0] == 'a' && CANDIDATE[|CANDIDATE| - 1] == ':';
    RStripKeepsPrefix(line, CANDIDATE);
    PrefixesDiffer(Strip(line));
  }

  lemma BareFeed(a: string, b: string)
    requires NoBreaks(a) && NoBreaks(b) && b != []
    ensures SplitLines(a + "\n" + b) == [a, b] && !Contains(a + "\n" + b, CRLF)
  {
    var line := a + "\n" + b;
    FirstLine(line, a, b);
    SplitLinesOfOne(b);
    forall i ensures !OccursAt(line, CRLF, i) {
      CrlfAt(line, i);
      assert 0 <= i < |line| ==> line[i] != '\r';
    }
  }

  lemma Unbroken()
    ensures NoBreaks(SHA384) && NoBreaks(CANDIDATE)
  {
  }

  /** A stripped line with a candidate behind a bare line feed. */
  lemma HidingLine(line: string)
    requires line == SHA384 + "\n" + CANDIDATE
    ensures SplitLines(line) == [SHA384, CANDIDATE]
    ensures IsStripped(line) && !Contains(line, CRLF)
  {
    Unbroken();
    BareFeed(SHA384, CANDIDATE);
    assert StartsWith(line, SHA384);
  }

  lemma HiddenScan(s: Scan, line: string)
    requires s.mline == 0 && SplitLines(line) == [SHA384, CANDIDATE]
    ensures ScanText(s, line).out != []
  {
    var lines := [SHA384, CANDIDATE];
    StrippedIsIdle(SHA384);
    StartsStripped(CANDIDATE);
    assert lines[..1] == [SHA384] && lines[..1][..0] == [];
    assert MediaCount(lines[..1]) == 0;
    OutGrows(s, lines, 1);
  }

  lemma HiddenOffer(line: string)
    requires IsStripped(line) && !Contains(line, CRLF)
    ensures ApplyOfferPatches("m=" + CRLF + line).0 == "m="
  {
    var sdp := "m=" + CRLF + line;
    CrlfUnbordered();
    SplitConcat("m=", CRLF, line);
    CrlfAt("m=", 0);
    SplitFreeText("m=", CRLF);
    SplitFreeText(line, CRLF);
    assert Split(sdp, CRLF) == ["m=", line];
    OfferContains(sdp);
    InjectCases(sdp);
    StripIsJoinKept(sdp);
    assert ["m=", line][1..] == [line] && [line][1..] == [];
    assert Kept(["m=", line]) == ["m="];
  }

  /** An offer that loses its only candidate: it stands behind a bare line feed in a fingerprint line. */
  lemma HiddenCandidate()
    ensures var sdp := "m=" + CRLF + (SHA384 + "\n" + CANDIDATE);
            Candidates(sdp) != [] && Candidates(ApplyOfferPatches(sdp).0) == []
  {
    var line := SHA384 + "\n" + CANDIDATE;
    HidingLine(line);
    HiddenOffer(line);
    MediaOnly();
    ScanAtCrlf(START, "m=", line);
    ScanLastCrlf(START, "m=");
    HiddenScan(ScanText(START, "m=" + CRLF), line);
  }

  lemma MediaOnly()
    ensures ScanText(START, "m=").mline == 0 && Candidates("m=") == []
  {
    SplitLinesOfOne("m=");
    assert ["m="][..0] == [];
    assert RStrip("m=") == "m=" && LStrip("m=") == "m=";
    assert ScanLines(START, ["m="]) == ScanLine(START, "m=");
  }
}
