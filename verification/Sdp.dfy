/**
 The offer rewrites of `_sdp_patches.py` (SDP lines, section 5 of RFC 8866) and the
 candidates trickled from an offer.
 */
module Sdp {
  import opened Separators
  import opened PyText

  const SCTP_PORT := "a=sctp-port:5000"
  const SCTPMAP := "a=sctpmap:5000"
  const SCTPMAP_LINE := SCTPMAP + " webrtc-datachannel 1024"
  const SHA384 := "a=fingerprint:sha-384"
  const SHA512 := "a=fingerprint:sha-512"

  function InjectSctpmap(sdp: string): (string, bool) {
    if !Has(sdp, SCTP_PORT) || Has(sdp, SCTPMAP) then (sdp, false)
    else (Replace(sdp, SCTP_PORT + CRLF, SCTP_PORT + CRLF + SCTPMAP_LINE + CRLF), true)
  }

  predicate IsStripped(line: string) {
    StartsWith(line, SHA384) || StartsWith(line, SHA512)
  }

  function Kept(lines: seq<string>): (kept: seq<string>)
    ensures |kept| <= |lines|
  {
    if lines == [] then []
    else (if IsStripped(lines[0]) then [] else [lines[0]]) + Kept(lines[1..])
  }

  function StripFingerprints(sdp: string): (string, nat) {
    var lines := Split(sdp, CRLF);
    var kept := Kept(lines);
    var removed := |lines| - |kept|;
    if removed == 0 then (sdp, 0) else (Join(kept, CRLF), removed)
  }

  datatype Info = Info(sctpmapInjected: bool, fingerprintsStripped: nat)

  function ApplyOfferPatches(sdp: string): (string, Info) {
    var (injected, sctpmapInjected) := InjectSctpmap(sdp);
    var (stripped, fingerprintsStripped) := StripFingerprints(injected);
    (stripped, Info(sctpmapInjected, fingerprintsStripped))
  }

  // ---- Facts about the constants ----

  /** The texts as the camera's parser wants them. */
  lemma Texts()
    ensures SCTP_PORT == "a=sctp-port:5000" && SCTPMAP == "a=sctpmap:5000"
    ensures SCTPMAP_LINE == "a=sctpmap:5000 webrtc-datachannel 1024"
  {
    var line, text := SCTPMAP_LINE, "a=sctpmap:5000 webrtc-datachannel 1024";
    assert |line| == |text| && line[..14] == text[..14] && line[14..] == text[14..];
  }

  lemma CrlfUnbordered()
    ensures Unbordered(CRLF)
  {
    assert CRLF[1..] == "\n" && CRLF[..1] == "\r";
  }

  lemma NoCrlfLetters()
    ensures NothingInCommon(SCTP_PORT, CRLF) && NothingInCommon(SCTPMAP, CRLF) && NothingInCommon(SCTPMAP_LINE, CRLF)
  {
  }

  lemma SctpmapLineFacts()
    ensures !Contains(SCTPMAP_LINE, CRLF) && Contains(SCTPMAP_LINE, SCTPMAP) && !IsStripped(SCTPMAP_LINE)
  {
    NoCrlfLetters();
    NothingInCommonExcludes(SCTPMAP_LINE, CRLF);
    ContainsInside([], SCTPMAP, " webrtc-datachannel 1024");
    assert [] + SCTPMAP == SCTPMAP;
    assert SCTPMAP_LINE[2] == 's' && SHA384[2] == 'f' && SHA512[2] == 'f';
  }

  // ---- What the two rewrites do to the text ----

  const PORT_LINE := SCTP_PORT + CRLF

  lemma KeptAll(lines: seq<string>)
    ensures |Kept(lines)| == |lines| ==> Kept(lines) == lines
  {
  }

  lemma StripIsJoinKept(sdp: string)
    ensures StripFingerprints(sdp).0 == Join(Kept(Split(sdp, CRLF)), CRLF)
  {
    JoinSplit(sdp, CRLF);
    KeptAll(Split(sdp, CRLF));
  }

  lemma {:induction false} KeptIsFree(lines: seq<string>)
    requires Free(lines, CRLF)
    ensures Free(Kept(lines), CRLF)
    ensures forall k :: 0 <= k < |Kept(lines)| ==> !IsStripped(Kept(lines)[k])
    decreases |lines|
  {
    if lines != [] {
      assert !Contains(lines[0], CRLF);
      assert forall k :: 0 <= k < |lines[1..]| ==> lines[1..][k] == lines[k + 1];
      KeptIsFree(lines[1..]);
      var here, kept := Kept(lines), Kept(lines[1..]);
      forall k | 0 <= k < |here| ensures !Contains(here[k], CRLF) && !IsStripped(here[k]) {
        var j := if IsStripped(lines[0]) then k else k - 1;
        assert 0 <= j ==> here[k] == kept[j] && !Contains(kept[j], CRLF);
      }
    }
  }

  lemma {:induction false} KeptOfKept(lines: seq<string>)
    requires forall k :: 0 <= k < |lines| ==> !IsStripped(lines[k])
    ensures Kept(lines) == lines
    decreases |lines|
  {
    if lines != [] {
      KeptOfKept(lines[1..]);
    }
  }

  /** The lines of a stripped offer are the kept lines of the offer. */
  lemma StrippedLines(sdp: string)
    ensures var kept := Kept(Split(sdp, CRLF));
            Split(StripFingerprints(sdp).0, CRLF) == if kept == [] then [""] else kept
  {
    CrlfUnbordered();
    StripIsJoinKept(sdp);
    SplitIsFree(sdp, CRLF);
    KeptIsFree(Split(sdp, CRLF));
    if Kept(Split(sdp, CRLF)) != [] {
      SplitJoin(Kept(Split(sdp, CRLF)), CRLF);
    } else {
      assert !OccursAt("", CRLF, 0);
    }
  }

  /** A line that would make the camera check records against the wrong hash. */
  predicate IsForbidden(line: string) {
    "a=fingerprint:sha-384" <= line || "a=fingerprint:sha-512" <= line
  }

  /** The positions, in order, of the lines that are not forbidden. */
  ghost predicate AreAllowed(js: seq<nat>, lines: seq<string>) {
    && (forall i, k :: 0 <= i < k < |js| ==> js[i] < js[k])
    && (forall j :: j in js <==> 0 <= j < |lines| && !IsForbidden(lines[j]))
  }

  ghost predicate LinesAt(found: seq<string>, js: seq<nat>, lines: seq<string>) {
    |found| == |js| && forall i :: 0 <= i < |js| ==> js[i] < |lines| && found[i] == lines[js[i]]
  }

  /** Positions in a list that has one more entry in front. */
  function Behind(first: bool, rest: seq<nat>): seq<nat> {
    (if first then [0] else []) + seq(|rest|, i requires 0 <= i < |rest| => rest[i] + 1)
  }

  lemma InBehind(first: bool, rest: seq<nat>, j: int)
    ensures j in Behind(first, rest) <==> (j == 0 && first) || (j > 0 && j - 1 in rest)
  {
    var later := seq(|rest|, i requires 0 <= i < |rest| => rest[i] + 1);
    if j > 0 && j - 1 in rest {
      var i :| 0 <= i < |rest| && rest[i] == j - 1;
      assert later[i] == j;
    }
    if j in later {
      assert j - 1 in rest;
    }
  }

  lemma AllowedBehind(lines: seq<string>, rest: seq<nat>)
    requires lines != [] && AreAllowed(rest, lines[1..])
    ensures AreAllowed(Behind(!IsForbidden(lines[0]), rest), lines)
  {
    var js := Behind(!IsForbidden(lines[0]), rest);
    forall j ensures j in js <==> 0 <= j < |lines| && !IsForbidden(lines[j]) {
      InBehind(!IsForbidden(lines[0]), rest, j);
      assert j > 0 ==> (j - 1 in rest <==> j < |lines| && !IsForbidden(lines[1..][j - 1]));
    }
  }

  lemma LinesBehind(stays: bool, line: string, found: seq<string>, rest: seq<nat>, lines: seq<string>)
    requires LinesAt(found, rest, lines)
    ensures LinesAt((if stays then [line] else []) + found, Behind(stays, rest), [line] + lines)
  {
  }

  lemma ForbiddenIsStripped(line: string)
    ensures IsForbidden(line) <==> IsStripped(line)
  {
  }

  lemma {:induction false} KeptAreAllowed(lines: seq<string>) returns (js: seq<nat>)
    ensures AreAllowed(js, lines) && LinesAt(Kept(lines), js, lines)
    decreases |lines|
  {
    js := [];
    if lines != [] {
      var rest := KeptAreAllowed(lines[1..]);
      js := Behind(!IsForbidden(lines[0]), rest);
      AllowedBehind(lines, rest);
      KeptBehind(lines, rest);
    }
  }

  lemma KeptBehind(lines: seq<string>, rest: seq<nat>)
    requires lines != [] && LinesAt(Kept(lines[1..]), rest, lines[1..])
    ensures LinesAt(Kept(lines), Behind(!IsForbidden(lines[0]), rest), lines)
  {
    ForbiddenIsStripped(lines[0]);
    LinesBehind(!IsStripped(lines[0]), lines[0], Kept(lines[1..]), rest, lines[1..]);
    assert [lines[0]] + lines[1..] == lines;
  }

  /** Stripping an offer twice changes it no further, and the second time finds nothing to remove. */
  lemma StripIsIdempotent(sdp: string)
    ensures var stripped := StripFingerprints(sdp).0;
            StripFingerprints(stripped) == (stripped, 0)
  {
    StrippedLines(sdp);
    SplitIsFree(sdp, CRLF);
    KeptIsFree(Split(sdp, CRLF));
    KeptOfKept(Split(StripFingerprints(sdp).0, CRLF));
  }

  lemma InjectCases(sdp: string)
    ensures Contains(sdp, SCTPMAP) || !Contains(sdp, PORT_LINE) ==> InjectSctpmap(sdp).0 == sdp
    ensures !Contains(sdp, SCTPMAP) && Contains(sdp, PORT_LINE) ==>
              InjectSctpmap(sdp).0 == Replace(sdp, PORT_LINE, PORT_LINE + SCTPMAP_LINE + CRLF)
  {
    HasIsContains(sdp, SCTP_PORT);
    HasIsContains(sdp, SCTPMAP);
    if Contains(sdp, PORT_LINE) {
      ContainsInside([], SCTP_PORT, CRLF);
      assert [] + SCTP_PORT + CRLF == PORT_LINE;
      ContainsTransitive(sdp, PORT_LINE, SCTP_PORT);
    } else {
      ReplaceNothing(sdp, PORT_LINE, PORT_LINE + SCTPMAP_LINE + CRLF);
    }
  }

  /** An offer that was changed has the new line among its lines. */
  lemma InjectedLine(sdp: string)
    requires !Contains(sdp, SCTPMAP) && Contains(sdp, PORT_LINE)
    ensures SCTPMAP_LINE in Split(InjectSctpmap(sdp).0, CRLF)
    ensures Contains(InjectSctpmap(sdp).0, SCTPMAP)
  {
    InjectCases(sdp);
    CrlfUnbordered();
    SctpmapLineFacts();
    HasIsContains(sdp, PORT_LINE);
    var parts, after := Split(sdp, PORT_LINE), PORT_LINE + SCTPMAP_LINE + CRLF;
    var x, rest := parts[0], Join(parts[1..], after);
    var injected := InjectSctpmap(sdp).0;
    assert injected == x + after + rest;
    Regroup(x, SCTP_PORT, CRLF, SCTPMAP_LINE, rest);
    LineBetween(x + SCTP_PORT, CRLF, SCTPMAP_LINE, rest);
    ContainsInside(x + SCTP_PORT + CRLF, SCTPMAP_LINE, CRLF + rest);
    ContainsTransitive(injected, SCTPMAP_LINE, SCTPMAP);
  }

  /** Injecting twice changes an offer no further. */
  lemma InjectIsIdempotent(sdp: string)
    ensures InjectSctpmap(InjectSctpmap(sdp).0).0 == InjectSctpmap(sdp).0
  {
    InjectCases(sdp);
    if !Contains(sdp, SCTPMAP) && Contains(sdp, PORT_LINE) {
      InjectedLine(sdp);
      InjectCases(InjectSctpmap(sdp).0);
    }
  }

  lemma {:induction false} UnstrippedIsKept(lines: seq<string>, line: string)
    requires line in lines && !IsStripped(line)
    ensures line in Kept(lines)
    decreases |lines|
  {
    if lines[0] != line {
      UnstrippedIsKept(lines[1..], line);
    }
  }

  lemma {:induction false} KeptLineEnds(lines: seq<string>, p: string)
    requires SomeLineEnds(Kept(lines), p)
    ensures SomeLineEnds(lines, p)
    decreases |lines|
  {
    var kept, rest := Kept(lines), lines[1..];
    var k :| 0 <= k < |kept| - 1 && EndsWith(kept[k], p);
    if k == 0 && !IsStripped(lines[0]) {
      assert EndsWith(lines[0], p);
    } else {
      var j := if IsStripped(lines[0]) then k else k - 1;
      assert EndsWith(Kept(rest)[j], p);
      KeptLineEnds(rest, p);
      var i :| 0 <= i < |rest| - 1 && EndsWith(rest[i], p);
      assert EndsWith(lines[i + 1], p);
    }
  }

  lemma StrippedContains(sdp: string)
    ensures var kept, stripped := Kept(Split(sdp, CRLF)), StripFingerprints(sdp).0;
            && (Contains(stripped, SCTPMAP) <==> SomeContains(kept, SCTPMAP))
            && (Contains(stripped, PORT_LINE) <==> SomeLineEnds(kept, SCTP_PORT))
  {
    CrlfUnbordered();
    NoCrlfLetters();
    StripIsJoinKept(sdp);
    SplitIsFree(sdp, CRLF);
    KeptIsFree(Split(sdp, CRLF));
    ContainsInJoin(Kept(Split(sdp, CRLF)), CRLF, SCTPMAP);
    LineEndInJoin(Kept(Split(sdp, CRLF)), CRLF, SCTP_PORT);
  }

  lemma OfferContains(sdp: string)
    ensures Contains(sdp, SCTPMAP) <==> SomeContains(Split(sdp, CRLF), SCTPMAP)
    ensures Contains(sdp, PORT_LINE) <==> SomeLineEnds(Split(sdp, CRLF), SCTP_PORT)
  {
    CrlfUnbordered();
    NoCrlfLetters();
    JoinSplit(sdp, CRLF);
    SplitIsFree(sdp, CRLF);
    ContainsInJoin(Split(sdp, CRLF), CRLF, SCTPMAP);
    LineEndInJoin(Split(sdp, CRLF), CRLF, SCTP_PORT);
  }

  /** A new sctpmap line survives stripping. */
  lemma InjectedSurvives(sdp: string)
    requires !Contains(sdp, SCTPMAP) && Contains(sdp, PORT_LINE)
    ensures Contains(StripFingerprints(InjectSctpmap(sdp).0).0, SCTPMAP)
  {
    InjectedLine(sdp);
    SctpmapLineFacts();
    var kept := Kept(Split(InjectSctpmap(sdp).0, CRLF));
    UnstrippedIsKept(Split(InjectSctpmap(sdp).0, CRLF), SCTPMAP_LINE);
    var k :| 0 <= k < |kept| && kept[k] == SCTPMAP_LINE;
    assert Contains(kept[k], SCTPMAP);
    StrippedContains(InjectSctpmap(sdp).0);
  }

  /** Stripping removes every mention of sctpmap, and a port line that asks for one stays. */
  ghost predicate LosesSctpmap(lines: seq<string>) {
    && SomeContains(lines, SCTPMAP)
    && !SomeContains(Kept(lines), SCTPMAP)
    && SomeLineEnds(Kept(lines), SCTP_PORT)
  }

  /**
   Patching an offer twice changes it no further, unless a sctpmap that only a stripped
   fingerprint line mentions had kept the first pass from injecting one.
   */
  lemma ApplyIsIdempotentIff(sdp: string)
    ensures var patched := ApplyOfferPatches(sdp).0;
            ApplyOfferPatches(patched).0 == patched <==> !LosesSctpmap(Split(sdp, CRLF))
  {
    var lines, injected := Split(sdp, CRLF), InjectSctpmap(sdp).0;
    var patched := ApplyOfferPatches(sdp).0;
    OfferContains(sdp);
    InjectCases(sdp);
    StripIsIdempotent(injected);
    InjectCases(patched);
    if Contains(sdp, SCTPMAP) || !Contains(sdp, PORT_LINE) {
      StrippedContains(sdp);
      if SomeLineEnds(Kept(lines), SCTP_PORT) {
        KeptLineEnds(lines, SCTP_PORT);
      }
      if LosesSctpmap(lines) {
        InjectedSurvives(patched);
      }
    } else {
      InjectedSurvives(sdp);
    }
  }

  lemma TwoPassKept()
    ensures Kept([SHA384 + SCTPMAP, SCTP_PORT, ""]) == [SCTP_PORT, ""]
  {
    var lines := [SHA384 + SCTPMAP, SCTP_PORT, ""];
    assert SCTP_PORT[2] == 's' && SHA384[2] == 'f' && SHA512[2] == 'f';
    assert StartsWith(lines[0], SHA384);
    KeptOfKept([SCTP_PORT, ""]);
    assert lines[1..] == [SCTP_PORT, ""];
  }

  lemma PortIsNoSctpmap()
    ensures !Contains(SCTP_PORT, SCTPMAP)
  {
    assert SCTPMAP[6] == 'm' && 'm' !in SCTP_PORT;
    forall i ensures !OccursAt(SCTP_PORT, SCTPMAP, i) {
      if OccursAt(SCTP_PORT, SCTPMAP, i) {
        LetterOf(SCTP_PORT, SCTPMAP, i, i + 6);
      }
    }
  }

  lemma TwoPassLines(lines: seq<string>, line: string, port: string)
    requires lines == [line, port, ""] && Kept(lines) == [port, ""]
    requires port == SCTP_PORT && Contains(line, SCTPMAP)
    ensures LosesSctpmap(lines)
  {
    PortIsNoSctpmap();
    var kept := Kept(lines);
    assert EndsWith(kept[0], SCTP_PORT);
    assert Contains(lines[0], SCTPMAP);
  }

  /** An offer that takes two passes: the only sctpmap is in a fingerprint line. */
  lemma TwoPassOffer()
    ensures var sdp := Join([SHA384 + SCTPMAP, SCTP_PORT, ""], CRLF);
            ApplyOfferPatches(ApplyOfferPatches(sdp).0).0 != ApplyOfferPatches(sdp).0
  {
    TwoPassKept();
    TwoPassLoses(SHA384 + SCTPMAP, SCTP_PORT);
  }

  lemma TwoPassLoses(line: string, port: string)
    requires line == SHA384 + SCTPMAP && port == SCTP_PORT && Kept([line, port, ""]) == [port, ""]
    ensures var sdp := Join([line, port, ""], CRLF);
            ApplyOfferPatches(ApplyOfferPatches(sdp).0).0 != ApplyOfferPatches(sdp).0
  {
    ContainsInside(SHA384, SCTPMAP, "");
    assert SHA384 + SCTPMAP + "" == line;
    TwoPassSplits(line, port);
    TwoPassLines([line, port, ""], line, port);
    ApplyIsIdempotentIff(Join([line, port, ""], CRLF));
  }

  lemma TwoPassSplits(line: string, port: string)
    requires line == SHA384 + SCTPMAP && port == SCTP_PORT
    ensures Split(Join([line, port, ""], CRLF), CRLF) == [line, port, ""]
  {
    CrlfUnbordered();
    NoCrlfLetters();
    NothingInCommonExcludes(line, CRLF);
    NothingInCommonExcludes(port, CRLF);
    SplitJoin([line, port, ""], CRLF);
  }

  // ---- Injection line by line ----

  /** The sctpmap line behind every line that ends in the port and is not the last. */
  function WithSctpmap(lines: seq<string>): seq<string> {
    if |lines| <= 1 then lines
    else [lines[0]] + (if EndsWith(lines[0], SCTP_PORT) then [SCTPMAP_LINE] else []) + WithSctpmap(lines[1..])
  }

  lemma {:induction false} WithSctpmapOfNone(lines: seq<string>)
    requires !SomeLineEnds(lines, SCTP_PORT)
    ensures WithSctpmap(lines) == lines
    decreases |lines|
  {
    if |lines| > 1 {
      assert !EndsWith(lines[0], SCTP_PORT);
      forall k | 0 <= k < |lines[1..]| - 1 ensures !EndsWith(lines[1..][k], SCTP_PORT) {
        assert !EndsWith(lines[k + 1], SCTP_PORT);
      }
      WithSctpmapOfNone(lines[1..]);
      assert [lines[0]] + [] + lines[1..] == lines;
    }
  }

  lemma {:induction false} WithSctpmapConcat(a: seq<string>, b: seq<string>)
    requires a != [] && b != []
    requires EndsWith(a[|a| - 1], SCTP_PORT) && !SomeLineEnds(a, SCTP_PORT)
    ensures WithSctpmap(a + b) == a + [SCTPMAP_LINE] + WithSctpmap(b)
    decreases |a|
  {
    var rest := a[1..];
    assert (a + b)[1..] == rest + b && (a + b)[0] == a[0];
    if |a| == 1 {
      assert rest + b == b && a == [a[0]];
    } else {
      assert !EndsWith(a[0], SCTP_PORT);
      forall k | 0 <= k < |rest| - 1 ensures !EndsWith(rest[k], SCTP_PORT) {
        assert !EndsWith(a[k + 1], SCTP_PORT);
      }
      WithSctpmapConcat(rest, b);
      assert [a[0]] + [] + (rest + [SCTPMAP_LINE] + WithSctpmap(b)) == a + [SCTPMAP_LINE] + WithSctpmap(b);
    }
  }

  /** The lines of a text up to and including a port line. */
  lemma PortLineLast(p: string)
    requires !Contains(p, PORT_LINE)
    ensures var lines := Split(p + SCTP_PORT, CRLF);
            EndsWith(lines[|lines| - 1], SCTP_PORT) && !SomeLineEnds(lines, SCTP_PORT)
  {
    CrlfUnbordered();
    NoCrlfLetters();
    OfferContains(p);
    SplitAppend(p, CRLF, SCTP_PORT);
    var lines, before := Split(p + SCTP_PORT, CRLF), Split(p, CRLF);
    forall k | 0 <= k < |lines| - 1 ensures !EndsWith(lines[k], SCTP_PORT) {
      assert lines[k] == before[k];
    }
  }

  lemma LinesAroundInjection(p: string, z: string)
    ensures Split(p + (PORT_LINE + SCTPMAP_LINE + CRLF) + z, CRLF)
         == Split(p + SCTP_PORT, CRLF) + [SCTPMAP_LINE] + Split(z, CRLF)
  {
    CrlfUnbordered();
    SctpmapLineFacts();
    Regroup(p, SCTP_PORT, CRLF, SCTPMAP_LINE, z);
    LineBetween(p + SCTP_PORT, CRLF, SCTPMAP_LINE, z);
  }

  lemma LinesAroundPort(p: string, y: string)
    ensures Split(p + PORT_LINE + y, CRLF) == Split(p + SCTP_PORT, CRLF) + Split(y, CRLF)
  {
    CrlfUnbordered();
    ConcatAssoc(p, SCTP_PORT, CRLF);
    SplitConcat(p + SCTP_PORT, CRLF, y);
  }

  lemma InjectedLinesStep(p: string, y: string, z: string)
    requires !Contains(p, PORT_LINE) && Split(z, CRLF) == WithSctpmap(Split(y, CRLF))
    ensures Split(p + (PORT_LINE + SCTPMAP_LINE + CRLF) + z, CRLF) == WithSctpmap(Split(p + PORT_LINE + y, CRLF))
  {
    LinesAroundInjection(p, z);
    LinesAroundPort(p, y);
    PortLineLast(p);
    WithSctpmapConcat(Split(p + SCTP_PORT, CRLF), Split(y, CRLF));
  }

  lemma {:induction false} InjectedLines(parts: seq<string>)
    requires parts != [] && Free(parts, PORT_LINE)
    ensures Split(Join(parts, PORT_LINE + SCTPMAP_LINE + CRLF), CRLF)
         == WithSctpmap(Split(Join(parts, PORT_LINE), CRLF))
    decreases |parts|
  {
    assert !Contains(parts[0], PORT_LINE);
    if |parts| == 1 {
      OfferContains(parts[0]);
      WithSctpmapOfNone(Split(parts[0], CRLF));
    } else {
      forall k | 0 <= k < |parts[1..]| ensures !Contains(parts[1..][k], PORT_LINE) {
        assert !Contains(parts[k + 1], PORT_LINE);
      }
      InjectedLines(parts[1..]);
      InjectedLinesStep(parts[0], Join(parts[1..], PORT_LINE), Join(parts[1..], PORT_LINE + SCTPMAP_LINE + CRLF));
    }
  }

  /**
   Injection, line by line: an offer that mentions no sctpmap gets the sctpmap line right
   behind each of its port lines that another line follows; any other offer stays as it is.
   */
  lemma InjectIsLineWise(sdp: string)
    ensures Split(InjectSctpmap(sdp).0, CRLF)
         == if SomeContains(Split(sdp, CRLF), "a=sctpmap:5000") then Split(sdp, CRLF)
            else WithSctpmap(Split(sdp, CRLF))
  {
    OfferContains(sdp);
    InjectCases(sdp);
    if !Contains(sdp, SCTPMAP) {
      if Contains(sdp, PORT_LINE) {
        SplitIsFree(sdp, PORT_LINE);
        JoinSplit(sdp, PORT_LINE);
        InjectedLines(Split(sdp, PORT_LINE));
      } else {
        WithSctpmapOfNone(Split(sdp, CRLF));
      }
    }
  }

  /** The flag says that an injection was due, not that the text changed: that takes a CRLF behind a port line. */
  lemma InjectFlag(sdp: string)
    ensures InjectSctpmap(sdp).1 <==> Contains(sdp, SCTP_PORT) && !Contains(sdp, SCTPMAP)
    ensures InjectSctpmap(sdp).0 != sdp <==> InjectSctpmap(sdp).1 && SomeLineEnds(Split(sdp, CRLF), SCTP_PORT)
  {
    HasIsContains(sdp, SCTP_PORT);
    HasIsContains(sdp, SCTPMAP);
    OfferContains(sdp);
    InjectCases(sdp);
    if !Contains(sdp, SCTPMAP) && Contains(sdp, PORT_LINE) {
      InjectedLine(sdp);
      ContainsInside([], SCTP_PORT, CRLF);
      assert [] + SCTP_PORT + CRLF == PORT_LINE;
      ContainsTransitive(sdp, PORT_LINE, SCTP_PORT);
    }
  }

  // ---- The patched offer ----

  /**
   What patching leaves of the offer with its injected line, and how much it says it stripped: no
   sha-384 or sha-512 fingerprint, and every other line, in order and as often as it was there.
   */
  lemma PatchedLinesAreExact(sdp: string) returns (js: seq<nat>)
    ensures var lines, patched := Split(InjectSctpmap(sdp).0, CRLF), Split(ApplyOfferPatches(sdp).0, CRLF);
            && AreAllowed(js, lines)
            && (if js == [] then patched == [""] else LinesAt(patched, js, lines))
            && (forall k :: 0 <= k < |patched| ==> !IsForbidden(patched[k]))
            && ApplyOfferPatches(sdp).1.fingerprintsStripped == |lines| - |js|
            && (ApplyOfferPatches(sdp).1.sctpmapInjected
                <==> Contains(sdp, "a=sctp-port:5000") && !Contains(sdp, "a=sctpmap:5000"))
  {
    var injected := InjectSctpmap(sdp).0;
    StrippedLines(injected);
    InjectFlag(sdp);
    js := KeptAreAllowed(Split(injected, CRLF));
    forall i | 0 <= i < |js| ensures !IsForbidden(Split(injected, CRLF)[js[i]]) {
      assert js[i] in js;
    }
  }
}
