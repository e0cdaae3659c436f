/**
 The Prometheus text exposition of the engine's state: rendering, and a reader
 for a subset of the text-based exposition format, version 0.0.4.  The reader
 takes any metric name, any label value, and comment lines anywhere; of a sample
 line it takes at most one label, single spaces only where they are required, and
 the rest of the line as the value, so a timestamp would be part of the value.
 */
module Exposition {
  import opened Prelude
  import opened Decimal

  // ---------------------------------------------------------------------
  // Escaping label values
  // ---------------------------------------------------------------------

  function EscapeChar(c: char): string {
    if c == '\\' then "\\\\" else if c == '"' then "\\\"" else if c == '\n' then "\\n" else [c]
  }

  function Escape(value: string): string {
    if value == "" then "" else EscapeChar(value[0]) + Escape(value[1..])
  }

  /** Reads up to the first unescaped quote: the value and what follows it. */
  function ReadQuoted(s: string): Option<(string, string)> {
    if s == "" then None
    else if s[0] == '"' then Some(("", s[1..]))
    else if s[0] == '\\' then
      if |s| < 2 then None
      else
        var decoded := if s[1] == 'n' then '\n' else s[1];
        if s[1] != '\\' && s[1] != '"' && s[1] != 'n' then None else Prepend(decoded, ReadQuoted(s[2..]))
    else Prepend(s[0], ReadQuoted(s[1..]))
  }

  function Prepend(c: char, read: Option<(string, string)>): Option<(string, string)> {
    match read
    case Some((value, rest)) => Some(([c] + value, rest))
    case None => None
  }

  predicate OneLine(s: string) {
    forall i | 0 <= i < |s| :: s[i] != '\n'
  }

  /** The reader gets the value back, and stops at the closing quote. */
  lemma {:induction false} ReadEscaped(value: string, rest: string)
    ensures ReadQuoted(Escape(value) + "\"" + rest) == Some((value, rest))
  {
    var text := Escape(value) + "\"" + rest;
    if value == "" {
      assert text == ['"'] + rest;
    } else {
      var c, tail := value[0], value[1..];
      ReadEscaped(tail, rest);
      var later := Escape(tail) + "\"" + rest;
      assert text == EscapeChar(c) + later;
      assert value == [c] + tail;
      if |EscapeChar(c)| == 2 {
        assert text[2..] == later;
      } else {
        assert text[1..] == later;
      }
    }
  }

  lemma {:induction false} EscapedIsOneLine(value: string)
    ensures OneLine(Escape(value))
  {
    if value != "" { EscapedIsOneLine(value[1..]); }
  }

  lemma {:induction false} EscapeAppend(a: string, b: string)
    ensures Escape(a + b) == Escape(a) + Escape(b)
  {
    hide EscapeChar;
    if a == "" {
      assert a + b == b;
    } else {
      EscapeAppend(a[1..], b);
      assert (a + b)[1..] == a[1..] + b;
      var first := EscapeChar(a[0]);
      assert first + Escape(a[1..]) + Escape(b) == first + (Escape(a[1..]) + Escape(b));
    }
  }

  method EscapeLabelValue(value: string) returns (out: string)
    ensures out == Escape(value)
    ensures OneLine(out)
    ensures forall rest: string :: ReadQuoted(out + "\"" + rest) == Some((value, rest))
  {
    out := "";
    for i := 0 to |value|
      invariant out == Escape(value[..i])
    {
      var c := value[i];
      EscapeAppend(value[..i], [c]);
      assert value[..i + 1] == value[..i] + [c];
      assert Escape([c]) == EscapeChar(c) by { assert Escape([c][1..]) == ""; }
      match c {
        case '\\' => out := out + "\\\\";
        case '"' => out := out + "\\\"";
        case '\n' => out := out + "\\n";
        case _ => out := out + [c];
      }
    }
    assert value[..|value|] == value;
    EscapedIsOneLine(value);
    forall rest: string ensures ReadQuoted(out + "\"" + rest) == Some((value, rest)) {
      ReadEscaped(value, rest);
    }
  }

  // ---------------------------------------------------------------------
  // Sample lines
  // ---------------------------------------------------------------------

  datatype Sample = Sample(name: string, tag: Option<(string, string)>, value: string)

  predicate IsNameChar(c: char) {
    IsLetter(c) || IsDigit(c) || c == '_' || c == ':'
  }

  predicate IsName(s: string) {
    s != "" && !IsDigit(s[0]) && forall i | 0 <= i < |s| :: IsNameChar(s[i])
  }

  predicate WellFormed(s: Sample) {
    && IsName(s.name)
    && (s.tag.Some? ==> IsName(s.tag.value.0))
    && OneLine(s.value)
  }

  function RenderLabel(tag: Option<(string, string)>): string {
    match tag
    case Some((key, value)) => "{" + key + "=\"" + Escape(value) + "\"}"
    case None => ""
  }

  function RenderLine(s: Sample): string {
    s.name + RenderLabel(s.tag) + " " + s.value
  }

  /** The longest run of name characters, and what follows it. */
  function ReadName(s: string): (string, string) {
    if s == "" || !IsNameChar(s[0]) then ("", s)
    else
      var (name, rest) := ReadName(s[1..]);
      ([s[0]] + name, rest)
  }

  /** `="`: the opening of a quoted label value. */
  const OPENING := ['=', '"']

  /** `} `: the end of the label set and the separator. */
  const CLOSING := ['}', ' ']

  function ReadLabelled(name: string, s: string): Option<Sample> {
    var (key, opening) := ReadName(s);
    if !IsName(key) || !(OPENING <= opening) then None
    else
      match ReadQuoted(opening[2..])
      case None => None
      case Some((value, closing)) =>
        if CLOSING <= closing then Some(Sample(name, Some((key, value)), closing[2..])) else None
  }

  function ReadLine(line: string): Option<Sample> {
    var (name, rest) := ReadName(line);
    if !IsName(name) || rest == "" then None
    else if rest[0] == '{' then ReadLabelled(name, rest[1..])
    else if rest[0] == ' ' then Some(Sample(name, None, rest[1..]))
    else None
  }

  lemma {:induction false} ReadNameStops(name: string, rest: string)
    requires forall i | 0 <= i < |name| :: IsNameChar(name[i])
    requires rest != "" && !IsNameChar(rest[0])
    ensures ReadName(name + rest) == (name, rest)
  {
    if name == "" {
      assert name + rest == rest;
    } else {
      ReadNameStops(name[1..], rest);
      assert (name + rest)[1..] == name[1..] + rest;
      assert name == [name[0]] + name[1..];
    }
  }

  /** Every rendered sample reads back to its name, label and value. */
  lemma ReadRendered(s: Sample)
    requires WellFormed(s)
    ensures ReadLine(RenderLine(s)) == Some(s)
    ensures OneLine(RenderLine(s))
    ensures RenderLine(s) != "" && RenderLine(s)[0] != '#'
  {
    match s.tag
    case None =>
      var rest := " " + s.value;
      assert RenderLine(s) == s.name + rest;
      ReadNameStops(s.name, rest);
      assert rest[1..] == s.value;
    case Some((key, value)) => ReadRenderedLabel(s, key, value);
  }

  lemma ReadRenderedLabel(s: Sample, key: string, value: string)
    requires WellFormed(s) && s.tag == Some((key, value))
    ensures ReadLine(RenderLine(s)) == Some(s)
    ensures OneLine(RenderLine(s))
  {
    hide Escape, ReadQuoted, ReadName;
    var closing := CLOSING + s.value;
    var quoted := Escape(value) + "\"" + closing;
    var opening := OPENING + quoted;
    var rest := "{" + key + opening;
    assert RenderLine(s) == s.name + rest;
    ReadNameStops(s.name, rest);
    assert rest[1..] == key + opening;
    ReadNameStops(key, opening);
    assert opening[2..] == quoted;
    ReadEscaped(value, closing);
    assert closing[2..] == s.value;
    EscapedIsOneLine(value);
  }

  // ---------------------------------------------------------------------
  // The whole page
  // ---------------------------------------------------------------------

  /** Newline-terminated lines. */
  function Join(lines: seq<string>): string {
    if lines == [] then "" else lines[0] + "\n" + Join(lines[1..])
  }

  function LineEnd(text: string): (n: nat)
    ensures n <= |text| && OneLine(text[..n])
    ensures n < |text| ==> text[n] == '\n'
  {
    if text == "" || text[0] == '\n' then 0 else 1 + LineEnd(text[1..])
  }

  function Split(text: string): seq<string>
    decreases |text|
  {
    if text == "" then []
    else
      var n := LineEnd(text);
      [text[..n]] + if n < |text| then Split(text[n + 1..]) else []
  }

  function Newlines(text: string): nat {
    if text == "" then 0 else (if text[0] == '\n' then 1 else 0) + Newlines(text[1..])
  }

  ghost predicate AllOneLine(lines: seq<string>) {
    forall i | 0 <= i < |lines| :: OneLine(lines[i])
  }

  lemma {:induction false} LineEndFound(line: string, rest: string)
    requires OneLine(line)
    ensures LineEnd(line + "\n" + rest) == |line|
  {
    var text := line + "\n" + rest;
    if line != "" {
      LineEndFound(line[1..], rest);
      assert text[1..] == line[1..] + "\n" + rest;
    }
  }

  lemma {:induction false} SplitJoin(lines: seq<string>)
    requires AllOneLine(lines)
    ensures Split(Join(lines)) == lines
  {
    if lines != [] {
      var rest := Join(lines[1..]);
      var text := lines[0] + "\n" + rest;
      LineEndFound(lines[0], rest);
      assert text[..|lines[0]|] == lines[0] && text[|lines[0]| + 1..] == rest;
      SplitJoin(lines[1..]);
    }
  }

  lemma {:induction false} NewlinesAppend(a: string, b: string)
    ensures Newlines(a + b) == Newlines(a) + Newlines(b)
  {
    if a == "" {
      assert a + b == b;
    } else {
      NewlinesAppend(a[1..], b);
      assert (a + b)[1..] == a[1..] + b;
    }
  }

  lemma {:induction false} NewlinesOneLine(line: string)
    requires OneLine(line)
    ensures Newlines(line) == 0
  {
    if line != "" { NewlinesOneLine(line[1..]); }
  }

  lemma {:induction false} NewlinesJoin(lines: seq<string>)
    requires AllOneLine(lines)
    ensures Newlines(Join(lines)) == |lines|
  {
    if lines != [] {
      NewlinesOneLine(lines[0]);
      NewlinesAppend(lines[0], "\n");
      assert Newlines("\n") == 1 by { assert "\n"[1..] == ""; }
      NewlinesAppend(lines[0] + "\n", Join(lines[1..]));
      NewlinesJoin(lines[1..]);
    }
  }

  lemma {:induction false} JoinAppend(a: seq<string>, b: seq<string>)
    ensures Join(a + b) == Join(a) + Join(b)
  {
    if a == [] {
      assert a + b == b;
    } else {
      JoinAppend(a[1..], b);
      assert (a + b)[1..] == a[1..] + b;
      var first := a[0] + "\n";
      assert first + (Join(a[1..]) + Join(b)) == first + Join(a[1..]) + Join(b);
    }
  }

  /** Comment lines are skipped; any line that is neither makes the page unreadable. */
  function ReadLines(lines: seq<string>): Option<seq<Sample>> {
    if lines == [] then Some([])
    else if lines[0] != "" && lines[0][0] == '#' then ReadLines(lines[1..])
    else
      match (ReadLine(lines[0]), ReadLines(lines[1..]))
      case (Some(sample), Some(samples)) => Some([sample] + samples)
      case _ => None
  }

  function Scrape(page: string): Option<seq<Sample>> {
    ReadLines(Split(page))
  }

  /** One metric: its two comment lines and its samples. */
  datatype Family = Family(name: string, help: string, samples: seq<Sample>)

  ghost predicate FamilySound(f: Family) {
    && OneLine(f.name) && OneLine(f.help)
    && forall i | 0 <= i < |f.samples| :: WellFormed(f.samples[i])
  }

  function HelpLine(name: string, help: string): string {
    "# HELP " + name + " " + help
  }

  function TypeLine(name: string): string {
    "# TYPE " + name + " gauge"
  }

  function SampleLines(samples: seq<Sample>): (lines: seq<string>)
    ensures |lines| == |samples|
  {
    if samples == [] then [] else [RenderLine(samples[0])] + SampleLines(samples[1..])
  }

  lemma {:induction false} SampleLineAt(samples: seq<Sample>, i: nat)
    requires i < |samples|
    ensures SampleLines(samples)[i] == RenderLine(samples[i])
  {
    hide RenderLine;
    if i > 0 { SampleLineAt(samples[1..], i - 1); }
  }

  function FamilyLines(f: Family): seq<string> {
    [HelpLine(f.name, f.help), TypeLine(f.name)] + SampleLines(f.samples)
  }

  function PageLines(families: seq<Family>): seq<string> {
    if families == [] then [] else FamilyLines(families[0]) + PageLines(families[1..])
  }

  function AllSamples(families: seq<Family>): seq<Sample> {
    if families == [] then [] else families[0].samples + AllSamples(families[1..])
  }

  lemma ReadSampleFirst(sample: Sample, lines: seq<string>)
    requires WellFormed(sample) && ReadLines(lines).Some?
    ensures ReadLines([RenderLine(sample)] + lines) == Some([sample] + ReadLines(lines).value)
    ensures OneLine(RenderLine(sample))
  {
    hide ReadLine, RenderLine;
    ReadRendered(sample);
    var all := [RenderLine(sample)] + lines;
    assert all[0] == RenderLine(sample) && all[1..] == lines;
  }

  lemma {:induction false} ReadSampleLines(samples: seq<Sample>, lines: seq<string>)
    requires forall i | 0 <= i < |samples| :: WellFormed(samples[i])
    requires ReadLines(lines).Some?
    ensures ReadLines(SampleLines(samples) + lines) == Some(samples + ReadLines(lines).value)
    decreases |samples|
  {
    hide ReadLines, RenderLine, OneLine, WellFormed;
    if samples == [] {
      assert SampleLines(samples) + lines == lines;
      assert samples + ReadLines(lines).value == ReadLines(lines).value;
    } else {
      var head, tail := samples[0], samples[1..];
      var later := SampleLines(tail) + lines;
      ReadSampleLines(tail, lines);
      ReadSampleFirst(head, later);
      SamplesFirst(samples, lines);
      assert samples + ReadLines(lines).value == [head] + (tail + ReadLines(lines).value);
    }
  }

  lemma ConcatAssociates<T>(a: seq<T>, b: seq<T>, c: seq<T>)
    ensures a + b + c == a + (b + c)
  {
  }

  lemma SamplesFirst(samples: seq<Sample>, lines: seq<string>)
    requires samples != []
    ensures SampleLines(samples) + lines == [RenderLine(samples[0])] + (SampleLines(samples[1..]) + lines)
  {
  }

  lemma SampleLinesAreLines(samples: seq<Sample>)
    requires forall i | 0 <= i < |samples| :: WellFormed(samples[i])
    ensures AllOneLine(SampleLines(samples))
  {
    hide RenderLine, WellFormed, OneLine;
    forall i | 0 <= i < |samples| ensures OneLine(SampleLines(samples)[i]) {
      SampleLineAt(samples, i);
      ReadRendered(samples[i]);
    }
  }

  lemma CommentLines(name: string, help: string)
    ensures HelpLine(name, help) != "" && HelpLine(name, help)[0] == '#'
    ensures TypeLine(name) != "" && TypeLine(name)[0] == '#'
    ensures OneLine(name) && OneLine(help) ==> OneLine(HelpLine(name, help)) && OneLine(TypeLine(name))
  {
  }

  lemma AppendLines(first: string, second: string, lines: seq<string>)
    requires OneLine(first) && OneLine(second) && AllOneLine(lines)
    ensures AllOneLine([first, second] + lines)
  {
  }

  lemma SkipComment(line: string, lines: seq<string>)
    requires line != "" && line[0] == '#'
    ensures ReadLines([line] + lines) == ReadLines(lines)
  {
  }

  lemma ReadFamily(f: Family, lines: seq<string>)
    requires FamilySound(f) && ReadLines(lines).Some?
    ensures ReadLines(FamilyLines(f) + lines) == Some(f.samples + ReadLines(lines).value)
    ensures AllOneLine(FamilyLines(f))
  {
    hide ReadLines, HelpLine, TypeLine, SampleLines, OneLine, WellFormed;
    ReadSampleLines(f.samples, lines);
    SampleLinesAreLines(f.samples);
    CommentLines(f.name, f.help);
    var help, kind := HelpLine(f.name, f.help), TypeLine(f.name);
    var rest := SampleLines(f.samples) + lines;
    SkipComment(kind, rest);
    SkipComment(help, [kind] + rest);
    assert FamilyLines(f) == [help, kind] + SampleLines(f.samples);
    ConcatAssociates([help, kind], SampleLines(f.samples), lines);
    assert [help, kind] + rest == [help] + ([kind] + rest);
    assert AllOneLine(FamilyLines(f)) by { AppendLines(help, kind, SampleLines(f.samples)); }
  }

  lemma {:induction false} ReadPage(families: seq<Family>)
    requires forall i | 0 <= i < |families| :: FamilySound(families[i])
    ensures ReadLines(PageLines(families)) == Some(AllSamples(families))
    ensures AllOneLine(PageLines(families))
  {
    if families != [] {
      hide ReadLines, FamilyLines, FamilySound, OneLine;
      ReadPage(families[1..]);
      ReadFamily(families[0], PageLines(families[1..]));
    }
  }

  /** Scraping a rendered page gives back every sample, in order, and nothing else. */
  lemma ScrapeRoundTrip(families: seq<Family>)
    requires forall i | 0 <= i < |families| :: FamilySound(families[i])
    ensures Scrape(Join(PageLines(families))) == Some(AllSamples(families))
    ensures Newlines(Join(PageLines(families))) == |PageLines(families)|
  {
    ReadPage(families);
    SplitJoin(PageLines(families));
    NewlinesJoin(PageLines(families));
  }

  // ---------------------------------------------------------------------
  // What the engine exposes
  // ---------------------------------------------------------------------

  datatype Collection = Collection(
    name: string,
    count: nat,
    sidecarResident: nat,
    sidecarDisk: nat,
    arenaResident: nat,
    sidecarCache: nat,
    arenaAllocated: nat,
    hnswVector: nat)

  /** `memoryUsage` is the printed floating-point estimate. */
  datatype Snapshot = Snapshot(
    nodes: nat, edges: nat, indexLag: nat, memoryUsage: string, rebuilding: bool, collections: seq<Collection>)

  const SCALAR_NAMES := [
    "genesisdb_nodes_total", "genesisdb_edges_total", "genesisdb_collections_total",
    "genesisdb_index_lag", "genesisdb_memory_usage_mb", "genesisdb_is_rebuilding"]

  const COLLECTION_PREFIX := "genesisdb_collection_"

  const COLLECTION_NAMES := [
    COLLECTION_PREFIX + "vectors",
    COLLECTION_PREFIX + "sidecar_resident_bytes",
    COLLECTION_PREFIX + "sidecar_disk_bytes",
    COLLECTION_PREFIX + "arena_resident_bytes",
    COLLECTION_PREFIX + "sidecar_cache_bytes",
    COLLECTION_PREFIX + "arena_allocated_bytes",
    COLLECTION_PREFIX + "hnsw_vector_bytes"]

  function ScalarValues(s: Snapshot): (values: seq<string>)
    ensures |values| == 6
  {
    [Show(s.nodes), Show(s.edges), Show(|s.collections|), Show(s.indexLag), s.memoryUsage,
     if s.rebuilding then "1" else "0"]
  }

  function CollectionValues(c: Collection): (values: seq<nat>)
    ensures |values| == 7
  {
    [c.count, c.sidecarResident, c.sidecarDisk, c.arenaResident, c.sidecarCache, c.arenaAllocated, c.hnswVector]
  }

  function ScalarSample(s: Snapshot, k: nat): Sample
    requires k < 6
  {
    Sample(SCALAR_NAMES[k], None, ScalarValues(s)[k])
  }

  function CollectionSample(c: Collection, k: nat): Sample
    requires k < 7
  {
    Sample(COLLECTION_NAMES[k], Some(("collection", c.name)), Show(CollectionValues(c)[k]))
  }

  function CollectionSamples(collections: seq<Collection>, k: nat): (samples: seq<Sample>)
    requires k < 7
    ensures |samples| == |collections|
    ensures forall i | 0 <= i < |collections| :: samples[i] == CollectionSample(collections[i], k)
  {
    seq(|collections|, i requires 0 <= i < |collections| => CollectionSample(collections[i], k))
  }

  function ScalarFamily(s: Snapshot, k: nat, help: seq<string>): Family
    requires k < 6 && |help| == 13
  {
    Family(SCALAR_NAMES[k], help[k], [ScalarSample(s, k)])
  }

  function CollectionFamily(s: Snapshot, k: nat, help: seq<string>): Family
    requires k < 7 && |help| == 13
  {
    Family(COLLECTION_NAMES[k], help[6 + k], CollectionSamples(s.collections, k))
  }

  /** The thirteen metrics in the order they are rendered. */
  function Families(s: Snapshot, help: seq<string>): (families: seq<Family>)
    requires |help| == 13
    ensures |families| == 13
  {
    seq(6, k requires 0 <= k < 6 => ScalarFamily(s, k, help))
    + seq(7, k requires 0 <= k < 7 => CollectionFamily(s, k, help))
  }

  lemma ScalarNames()
    ensures forall k | 0 <= k < 6 :: IsName(SCALAR_NAMES[k])
    ensures IsName("collection")
  {
  }

  lemma NameAppend(a: string, b: string)
    requires IsName(a) && IsName(b)
    ensures IsName(a + b)
  {
  }

  lemma Suffixes()
    ensures IsName("vectors") && IsName("sidecar_resident_bytes") && IsName("sidecar_disk_bytes")
    ensures IsName("arena_resident_bytes") && IsName("sidecar_cache_bytes")
  {
  }

  lemma MoreSuffixes()
    ensures IsName("arena_allocated_bytes") && IsName("hnsw_vector_bytes") && IsName(COLLECTION_PREFIX)
  {
  }

  lemma CollectionNames()
    ensures forall k | 0 <= k < 7 :: IsName(COLLECTION_NAMES[k])
  {
    Suffixes();
    MoreSuffixes();
    hide IsName;
    NameAppend(COLLECTION_PREFIX, "vectors");
    NameAppend(COLLECTION_PREFIX, "sidecar_resident_bytes");
    NameAppend(COLLECTION_PREFIX, "sidecar_disk_bytes");
    NameAppend(COLLECTION_PREFIX, "arena_resident_bytes");
    NameAppend(COLLECTION_PREFIX, "sidecar_cache_bytes");
    NameAppend(COLLECTION_PREFIX, "arena_allocated_bytes");
    NameAppend(COLLECTION_PREFIX, "hnsw_vector_bytes");
  }

  lemma FamiliesSound(s: Snapshot, help: seq<string>)
    requires |help| == 13 && AllOneLine(help) && OneLine(s.memoryUsage)
    ensures forall i | 0 <= i < 13 :: FamilySound(Families(s, help)[i])
  {
    ScalarNames();
    CollectionNames();
    forall k | 0 <= k < 6 ensures FamilySound(ScalarFamily(s, k, help)) {
      assert OneLine(ScalarValues(s)[k]);
    }
    forall k | 0 <= k < 7 ensures FamilySound(CollectionFamily(s, k, help)) {
    }
  }

  lemma FamilyLength(f: Family)
    ensures |FamilyLines(f)| == 2 + |f.samples|
  {
  }

  lemma {:induction false} PageLength(families: seq<Family>, n: nat)
    requires forall i | 0 <= i < |families| :: |families[i].samples| == n
    ensures |PageLines(families)| == |families| * (2 + n)
  {
    hide FamilyLines;
    if families != [] {
      PageLength(families[1..], n);
      assert |FamilyLines(families[0])| == 2 + n by { FamilyLength(families[0]); }
      assert (|families| - 1) * (2 + n) + (2 + n) == |families| * (2 + n);
    }
  }

  lemma {:induction false} PageLinesAppend(a: seq<Family>, b: seq<Family>)
    ensures PageLines(a + b) == PageLines(a) + PageLines(b)
  {
    hide FamilyLines;
    if a == [] {
      assert a + b == b;
    } else {
      PageLinesAppend(a[1..], b);
      assert (a + b)[1..] == a[1..] + b;
      var first := FamilyLines(a[0]);
      assert first + (PageLines(a[1..]) + PageLines(b)) == first + PageLines(a[1..]) + PageLines(b);
    }
  }

  /**
   The rendered page of `n` collections with any names has exactly 32 + 7n
   lines and scrapes back to the thirteen metrics' samples.
   */
  lemma PageReadsBack(s: Snapshot, help: seq<string>)
    requires |help| == 13 && AllOneLine(help) && OneLine(s.memoryUsage)
    ensures
      var page := Join(PageLines(Families(s, help)));
      && Scrape(page) == Some(AllSamples(Families(s, help)))
      && Newlines(page) == 32 + 7 * |s.collections|
  {
    hide FamilySound, Join, Scrape, Newlines, PageLines, AllSamples;
    var families := Families(s, help);
    FamiliesSound(s, help);
    ScrapeRoundTrip(families);
    assert families == families[..6] + families[6..];
    PageLinesAppend(families[..6], families[6..]);
    PageLength(families[..6], 1);
    PageLength(families[6..], |s.collections|);
  }

  // ---------------------------------------------------------------------
  // What a scrape shows
  // ---------------------------------------------------------------------

  datatype Comment = Help(name: string, text: string) | Type(name: string, kind: string)

  /** Reads `# HELP name text` and `# TYPE name kind`. */
  function ReadComment(line: string): Option<Comment> {
    if |line| < 7 then None
    else
      var (name, rest) := ReadName(line[7..]);
      if !IsName(name) || rest == "" || rest[0] != ' ' then None
      else if line[..7] == "# HELP " then Some(Help(name, rest[1..]))
      else if line[..7] == "# TYPE " then Some(Type(name, rest[1..]))
      else None
  }

  function Comments(lines: seq<string>): seq<Comment> {
    if lines == [] then []
    else
      (if lines[0] != "" && lines[0][0] == '#' && ReadComment(lines[0]).Some? then [ReadComment(lines[0]).value] else [])
      + Comments(lines[1..])
  }

  lemma HeaderRead(name: string, text: string)
    requires IsName(name)
    ensures ReadComment(HelpLine(name, text)) == Some(Help(name, text))
    ensures ReadComment(TypeLine(name)) == Some(Type(name, "gauge"))
  {
    var rest, gauge := " " + text, " gauge";
    ReadNameStops(name, rest);
    ReadNameStops(name, gauge);
    assert HelpLine(name, text) == "# HELP " + (name + rest);
    assert TypeLine(name) == "# TYPE " + (name + gauge);
    assert HelpLine(name, text)[7..] == name + rest && TypeLine(name)[7..] == name + gauge;
    assert HelpLine(name, text)[..7] == "# HELP " && TypeLine(name)[..7] == "# TYPE ";
    assert rest[1..] == text && gauge[1..] == "gauge";
    assert "# HELP "[2] != "# TYPE "[2];
  }

  lemma {:induction false} NoCommentSamples(samples: seq<Sample>, lines: seq<string>)
    requires forall i | 0 <= i < |samples| :: WellFormed(samples[i])
    ensures Comments(SampleLines(samples) + lines) == Comments(lines)
  {
    hide RenderLine, WellFormed, ReadComment;
    if samples == [] {
      assert SampleLines(samples) + lines == lines;
    } else {
      ReadRendered(samples[0]);
      SamplesFirst(samples, lines);
      NoCommentSamples(samples[1..], lines);
      var later := SampleLines(samples[1..]) + lines;
      assert ([RenderLine(samples[0])] + later)[1..] == later;
    }
  }

  lemma CommentFirst(line: string, lines: seq<string>)
    requires line != "" && line[0] == '#' && ReadComment(line).Some?
    ensures Comments([line] + lines) == [ReadComment(line).value] + Comments(lines)
  {
    hide ReadComment;
    assert ([line] + lines)[1..] == lines;
  }

  lemma FamilyComments(f: Family, lines: seq<string>)
    requires IsName(f.name) && FamilySound(f)
    ensures Comments(FamilyLines(f) + lines) == [Help(f.name, f.help), Type(f.name, "gauge")] + Comments(lines)
  {
    hide Comments, ReadComment, HelpLine, TypeLine, SampleLines, IsName, OneLine, WellFormed;
    var help, kind := HelpLine(f.name, f.help), TypeLine(f.name);
    var rest := SampleLines(f.samples) + lines;
    NoCommentSamples(f.samples, lines);
    HeaderRead(f.name, f.help);
    CommentLines(f.name, f.help);
    CommentFirst(kind, rest);
    CommentFirst(help, [kind] + rest);
    assert FamilyLines(f) + lines == [help] + ([kind] + rest);
  }

  function AllComments(families: seq<Family>): seq<Comment> {
    if families == [] then []
    else [Help(families[0].name, families[0].help), Type(families[0].name, "gauge")] + AllComments(families[1..])
  }

  lemma {:induction false} PageComments(families: seq<Family>)
    requires forall i | 0 <= i < |families| :: FamilySound(families[i]) && IsName(families[i].name)
    ensures Comments(PageLines(families)) == AllComments(families)
  {
    hide FamilyLines, FamilySound, IsName, ReadComment;
    if families != [] {
      PageComments(families[1..]);
      FamilyComments(families[0], PageLines(families[1..]));
    }
  }

  lemma {:induction false} CommentAt(families: seq<Family>, k: nat)
    requires k < |families|
    ensures |AllComments(families)| == 2 * |families|
    ensures AllComments(families)[2 * k] == Help(families[k].name, families[k].help)
    ensures AllComments(families)[2 * k + 1] == Type(families[k].name, "gauge")
  {
    CommentCount(families);
    if k > 0 {
      CommentAt(families[1..], k - 1);
      CommentCount(families[1..]);
    }
  }

  lemma {:induction false} CommentCount(families: seq<Family>)
    ensures |AllComments(families)| == 2 * |families|
  {
    if families != [] { CommentCount(families[1..]); }
  }

  /** `x` shows one of the figures of the snapshot. */
  ghost predicate IsFigure(s: Snapshot, x: Sample) {
    || x == Sample("genesisdb_nodes_total", None, Show(s.nodes))
    || x == Sample("genesisdb_edges_total", None, Show(s.edges))
    || x == Sample("genesisdb_collections_total", None, Show(|s.collections|))
    || x == Sample("genesisdb_index_lag", None, Show(s.indexLag))
    || x == Sample("genesisdb_memory_usage_mb", None, s.memoryUsage)
    || x == Sample("genesisdb_is_rebuilding", None, if s.rebuilding then "1" else "0")
    || exists i | 0 <= i < |s.collections| :: IsCollectionFigure(s.collections[i], x)
  }

  predicate IsCollectionFigure(c: Collection, x: Sample) {
    var tag := Some(("collection", c.name));
    || x == Sample("genesisdb_collection_" + "vectors", tag, Show(c.count))
    || x == Sample("genesisdb_collection_" + "sidecar_resident_bytes", tag, Show(c.sidecarResident))
    || x == Sample("genesisdb_collection_" + "sidecar_disk_bytes", tag, Show(c.sidecarDisk))
    || x == Sample("genesisdb_collection_" + "arena_resident_bytes", tag, Show(c.arenaResident))
    || x == Sample("genesisdb_collection_" + "sidecar_cache_bytes", tag, Show(c.sidecarCache))
    || x == Sample("genesisdb_collection_" + "arena_allocated_bytes", tag, Show(c.arenaAllocated))
    || x == Sample("genesisdb_collection_" + "hnsw_vector_bytes", tag, Show(c.hnswVector))
  }

  lemma {:induction false} SampleOfFamily(families: seq<Family>, x: Sample)
    ensures x in AllSamples(families) <==> exists k | 0 <= k < |families| :: x in families[k].samples
  {
    if families != [] {
      SampleOfFamily(families[1..], x);
      if k :| 0 <= k < |families[1..]| && x in families[1..][k].samples { assert x in families[k + 1].samples; }
      if k :| 0 <= k < |families| && x in families[k].samples { assert k > 0 ==> x in families[1..][k - 1].samples; }
    }
  }

  lemma ScalarFigures(s: Snapshot, help: seq<string>, x: Sample)
    requires |help| == 13
    ensures (exists k | 0 <= k < 6 :: x in ScalarFamily(s, k, help).samples)
       <==> || x == Sample("genesisdb_nodes_total", None, Show(s.nodes))
            || x == Sample("genesisdb_edges_total", None, Show(s.edges))
            || x == Sample("genesisdb_collections_total", None, Show(|s.collections|))
            || x == Sample("genesisdb_index_lag", None, Show(s.indexLag))
            || x == Sample("genesisdb_memory_usage_mb", None, s.memoryUsage)
            || x == Sample("genesisdb_is_rebuilding", None, if s.rebuilding then "1" else "0")
  {
    hide Show;
    assert forall k | 0 <= k < 6 :: ScalarFamily(s, k, help).samples == [Sample(SCALAR_NAMES[k], None, ScalarValues(s)[k])];
    if x == ScalarSample(s, 0) { assert x in ScalarFamily(s, 0, help).samples; }
    if x == ScalarSample(s, 1) { assert x in ScalarFamily(s, 1, help).samples; }
    if x == ScalarSample(s, 2) { assert x in ScalarFamily(s, 2, help).samples; }
    if x == ScalarSample(s, 3) { assert x in ScalarFamily(s, 3, help).samples; }
    if x == ScalarSample(s, 4) { assert x in ScalarFamily(s, 4, help).samples; }
    if x == ScalarSample(s, 5) { assert x in ScalarFamily(s, 5, help).samples; }
  }

  lemma CollectionFigure(c: Collection, x: Sample)
    ensures IsCollectionFigure(c, x) <==> exists k | 0 <= k < 7 :: x == CollectionSample(c, k)
  {
    hide Show;
    assert CollectionSample(c, 0) == Sample(COLLECTION_PREFIX + "vectors", Some(("collection", c.name)), Show(c.count));
    if IsCollectionFigure(c, x) {
      var k :=
        if x == CollectionSample(c, 0) then 0 else if x == CollectionSample(c, 1) then 1
        else if x == CollectionSample(c, 2) then 2 else if x == CollectionSample(c, 3) then 3
        else if x == CollectionSample(c, 4) then 4 else if x == CollectionSample(c, 5) then 5 else 6;
      assert x == CollectionSample(c, k);
    }
  }

  lemma CollectionFigures(s: Snapshot, help: seq<string>, x: Sample)
    requires |help| == 13
    ensures (exists k | 0 <= k < 7 :: x in CollectionFamily(s, k, help).samples)
       <==> exists i | 0 <= i < |s.collections| :: IsCollectionFigure(s.collections[i], x)
  {
    hide CollectionSample, IsCollectionFigure;
    if k :| 0 <= k < 7 && x in CollectionFamily(s, k, help).samples {
      var i :| 0 <= i < |s.collections| && CollectionSamples(s.collections, k)[i] == x;
      CollectionFigure(s.collections[i], x);
    }
    if i :| 0 <= i < |s.collections| && IsCollectionFigure(s.collections[i], x) {
      CollectionFigure(s.collections[i], x);
      var k :| 0 <= k < 7 && x == CollectionSample(s.collections[i], k);
      assert CollectionSamples(s.collections, k)[i] == x;
      assert x in CollectionFamily(s, k, help).samples;
    }
  }

  /** A scrape shows exactly the figures of the snapshot, each under its own name. */
  lemma PageShowsFigures(s: Snapshot, help: seq<string>, x: Sample)
    requires |help| == 13
    ensures x in AllSamples(Families(s, help)) <==> IsFigure(s, x)
  {
    hide ScalarFamily, CollectionFamily, IsCollectionFigure, Show;
    var families := Families(s, help);
    SampleOfFamily(families, x);
    ScalarFigures(s, help, x);
    CollectionFigures(s, help, x);
    assert forall k | 0 <= k < 6 :: families[k] == ScalarFamily(s, k, help);
    assert forall k | 0 <= k < 7 :: families[6 + k] == CollectionFamily(s, k, help);
    if k :| 0 <= k < 13 && x in families[k].samples {
      if k < 6 {
        assert x in ScalarFamily(s, k, help).samples;
      } else {
        assert x in CollectionFamily(s, k - 6, help).samples;
      }
    }
    if k :| 0 <= k < 6 && x in ScalarFamily(s, k, help).samples { assert x in families[k].samples; }
    if k :| 0 <= k < 7 && x in CollectionFamily(s, k, help).samples { assert x in families[6 + k].samples; }
  }

  /** Every metric is introduced by its help and its type, in the order of the page. */
  lemma PageDescribed(s: Snapshot, help: seq<string>)
    requires |help| == 13 && AllOneLine(help) && OneLine(s.memoryUsage)
    ensures
      var comments := Comments(Split(Join(PageLines(Families(s, help)))));
      && |comments| == 26
      && forall k | 0 <= k < 13 ::
           var name := if k < 6 then SCALAR_NAMES[k] else COLLECTION_NAMES[k - 6];
           comments[2 * k] == Help(name, help[k]) && comments[2 * k + 1] == Type(name, "gauge")
  {
    hide Comments, FamilySound, PageLines, Join, Split, AllComments, ScalarFamily, CollectionFamily, IsName;
    var families := Families(s, help);
    FamiliesSound(s, help);
    FamiliesNamed(s, help);
    ReadPage(families);
    SplitJoin(PageLines(families));
    PageComments(families);
    CommentCount(families);
    forall k | 0 <= k < 13
      ensures
        var name := if k < 6 then SCALAR_NAMES[k] else COLLECTION_NAMES[k - 6];
        AllComments(families)[2 * k] == Help(name, help[k]) && AllComments(families)[2 * k + 1] == Type(name, "gauge")
    {
      CommentAt(families, k);
    }
  }

  lemma FamiliesNamed(s: Snapshot, help: seq<string>)
    requires |help| == 13
    ensures forall k | 0 <= k < 13 ::
      var f := Families(s, help)[k];
      f.name == (if k < 6 then SCALAR_NAMES[k] else COLLECTION_NAMES[k - 6]) && f.help == help[k] && IsName(f.name)
  {
    hide IsName;
    ScalarNames();
    CollectionNames();
  }

  // ---------------------------------------------------------------------
  // Rendering
  // ---------------------------------------------------------------------

  lemma JoinOneMore(lines: seq<string>, i: nat)
    requires i < |lines|
    ensures Join(lines[..i + 1]) == Join(lines[..i]) + lines[i] + "\n"
  {
    JoinAppend(lines[..i], [lines[i]]);
    assert lines[..i + 1] == lines[..i] + [lines[i]];
    assert Join([lines[i]]) == lines[i] + "\n" by { assert [lines[i]][1..] == []; }
  }

  /** Pushing one more line. */
  lemma PushLine(out0: string, lines: seq<string>, i: nat)
    requires i < |lines|
    ensures out0 + Join(lines[..i]) + lines[i] + "\n" == out0 + Join(lines[..i + 1])
  {
    hide Join;
    JoinOneMore(lines, i);
  }

  method PushHeader(out0: string, name: string, help: string) returns (out: string)
    ensures out == out0 + Join([HelpLine(name, help), TypeLine(name)])
  {
    hide Join;
    ghost var lines := [HelpLine(name, help), TypeLine(name)];
    assert Join(lines[..0]) == "" by { EmptyJoin(); }
    assert out0 + "" == out0;
    PushLine(out0, lines, 0);
    PushLine(out0, lines, 1);
    assert lines[..2] == lines;
    out := out0 + ("# HELP " + name + " " + help) + "\n";
    out := out + ("# TYPE " + name + " gauge") + "\n";
  }

  lemma EmptyJoin()
    ensures Join([]) == ""
  {
  }

  lemma LabelledLine(name: string, c: Collection, k: nat)
    requires k < 7 && name == COLLECTION_NAMES[k]
    ensures name + ("{collection=\"" + Escape(c.name) + "\"}") + " " + Show(CollectionValues(c)[k])
         == RenderLine(CollectionSample(c, k))
  {
    hide Escape, Show, CollectionValues;
    assert "{collection=\"" == "{" + "collection" + "=\"";
  }

  method PushCollectionFamily(out0: string, s: Snapshot, k: nat, help: seq<string>) returns (out: string)
    requires k < 7 && |help| == 13
    ensures out == out0 + Join(FamilyLines(CollectionFamily(s, k, help)))
  {
    hide Join, Escape, RenderLine, CollectionSample, HelpLine, TypeLine, Show, CollectionValues;
    var name := COLLECTION_NAMES[k];
    out := PushHeader(out0, name, help[6 + k]);
    ghost var header := out;
    ghost var lines := SampleLines(CollectionSamples(s.collections, k));
    assert Join(lines[..0]) == "" by { EmptyJoin(); }
    assert header + "" == header;
    for i := 0 to |s.collections|
      invariant out == header + Join(lines[..i])
    {
      var c := s.collections[i];
      var escaped := EscapeLabelValue(c.name);
      LabelledLine(name, c, k);
      SampleLineAt(CollectionSamples(s.collections, k), i);
      PushLine(header, lines, i);
      out := out + (name + ("{collection=\"" + escaped + "\"}") + " " + Show(CollectionValues(c)[k])) + "\n";
    }
    assert lines[..|lines|] == lines;
    FamilyJoined(out0, CollectionFamily(s, k, help));
  }

  /** The two header lines and then the samples. */
  lemma FamilyJoined(out0: string, f: Family)
    ensures out0 + Join([HelpLine(f.name, f.help), TypeLine(f.name)]) + Join(SampleLines(f.samples))
         == out0 + Join(FamilyLines(f))
  {
    hide Join, HelpLine, TypeLine, SampleLines;
    JoinAppend([HelpLine(f.name, f.help), TypeLine(f.name)], SampleLines(f.samples));
  }

  method PushScalarFamily(out0: string, s: Snapshot, k: nat, help: seq<string>) returns (out: string)
    requires k < 6 && |help| == 13
    ensures out == out0 + Join(FamilyLines(ScalarFamily(s, k, help)))
  {
    hide Join, HelpLine, TypeLine, Show, ScalarValues;
    var name := SCALAR_NAMES[k];
    out := PushHeader(out0, name, help[k]);
    ghost var header := out;
    ghost var lines := SampleLines([ScalarSample(s, k)]);
    assert Join(lines[..0]) == "" by { EmptyJoin(); }
    assert header + "" == header;
    assert name + "" == name;
    PushLine(header, lines, 0);
    assert lines[..1] == lines;
    out := out + (name + " " + ScalarValues(s)[k]) + "\n";
    FamilyJoined(out0, ScalarFamily(s, k, help));
  }

  /** The page after the first `k` metrics. */
  ghost function PageSoFar(s: Snapshot, help: seq<string>, k: nat): string
    requires k <= 13 && |help| == 13
  {
    Join(PageLines(Families(s, help)[..k]))
  }

  lemma NothingYet(s: Snapshot, help: seq<string>)
    requires |help| == 13
    ensures PageSoFar(s, help, 0) == ""
  {
  }

  lemma ScalarPushed(s: Snapshot, help: seq<string>, k: nat)
    requires k < 6 && |help| == 13
    ensures PageSoFar(s, help, k + 1) == PageSoFar(s, help, k) + Join(FamilyLines(ScalarFamily(s, k, help)))
  {
    hide Join, PageLines, FamilyLines, ScalarFamily, CollectionFamily;
    OneFamilyMore(Families(s, help), k);
  }

  lemma CollectionPushed(s: Snapshot, help: seq<string>, k: nat)
    requires k < 7 && |help| == 13
    ensures PageSoFar(s, help, 7 + k) == PageSoFar(s, help, 6 + k) + Join(FamilyLines(CollectionFamily(s, k, help)))
  {
    hide Join, PageLines, FamilyLines, ScalarFamily, CollectionFamily;
    OneFamilyMore(Families(s, help), 6 + k);
  }

  method PushScalar(page0: string, s: Snapshot, k: nat, help: seq<string>) returns (page: string)
    requires k < 6 && |help| == 13 && page0 == PageSoFar(s, help, k)
    ensures page == PageSoFar(s, help, k + 1)
  {
    hide PageSoFar, Join, FamilyLines, ScalarFamily;
    page := PushScalarFamily(page0, s, k, help);
    ScalarPushed(s, help, k);
  }

  method PushCollection(page0: string, s: Snapshot, k: nat, help: seq<string>) returns (page: string)
    requires k < 7 && |help| == 13 && page0 == PageSoFar(s, help, 6 + k)
    ensures page == PageSoFar(s, help, 7 + k)
  {
    hide PageSoFar, Join, FamilyLines, CollectionFamily;
    page := PushCollectionFamily(page0, s, k, help);
    CollectionPushed(s, help, k);
  }

  method RenderMetrics(s: Snapshot, help: seq<string>) returns (page: string)
    requires |help| == 13 && AllOneLine(help) && OneLine(s.memoryUsage)
    ensures Scrape(page) == Some(AllSamples(Families(s, help)))
    ensures Newlines(page) == 32 + 7 * |s.collections|
    ensures Scrape(page).Some? && forall x :: x in Scrape(page).value <==> IsFigure(s, x)
  {
    hide PageSoFar, Families, Scrape, Newlines, AllSamples, IsFigure;
    NothingYet(s, help);
    page := "";
    page := PushScalar(page, s, 0, help);
    page := PushScalar(page, s, 1, help);
    page := PushScalar(page, s, 2, help);
    page := PushScalar(page, s, 3, help);
    page := PushScalar(page, s, 4, help);
    page := PushScalar(page, s, 5, help);
    page := PushCollection(page, s, 0, help);
    page := PushCollection(page, s, 1, help);
    page := PushCollection(page, s, 2, help);
    page := PushCollection(page, s, 3, help);
    page := PushCollection(page, s, 4, help);
    page := PushCollection(page, s, 5, help);
    page := PushCollection(page, s, 6, help);
    WholePage(s, help);
    PageReadsBack(s, help);
    forall x ensures x in AllSamples(Families(s, help)) <==> IsFigure(s, x) {
      PageShowsFigures(s, help, x);
    }
  }

  lemma WholePage(s: Snapshot, help: seq<string>)
    requires |help| == 13
    ensures PageSoFar(s, help, 13) == Join(PageLines(Families(s, help)))
  {
    var families := Families(s, help);
    assert families[..13] == families;
  }

  lemma OneFamilyMore(families: seq<Family>, k: nat)
    requires k < |families|
    ensures Join(PageLines(families[..k + 1])) == Join(PageLines(families[..k])) + Join(FamilyLines(families[k]))
  {
    PageLinesAppend(families[..k], [families[k]]);
    assert families[..k + 1] == families[..k] + [families[k]];
    assert PageLines([families[k]]) == FamilyLines(families[k]) by {
      assert [families[k]][1..] == [];
      assert FamilyLines(families[k]) + [] == FamilyLines(families[k]);
    }
    JoinAppend(PageLines(families[..k]), FamilyLines(families[k]));
  }
}
