/** The cache index and its text form (disk_cache.rs): printing, loading, and rebuilding it from a directory listing. */
module CacheIndex {
  import opened CacheNames

  datatype Key = Key(item: string, posMs: I64, width: U32)
  datatype Entry = Entry(frameIdx: I64, size: U64, writtenAt: U64, videoMtime: U64)
  datatype Index = Index(entries: map<Key, Entry>, total: nat)

  function FrameOf(k: Key, e: Entry): Frame { Frame(e.frameIdx, k.posMs, k.width) }

  // ---- words and lines ----

  /** Unicode White_Space. */
  predicate IsSpace(c: char) {
    var n := c as int;
    9 <= n <= 13 || n == 0x20 || n == 0x85 || n == 0xA0 || n == 0x1680 || 0x2000 <= n <= 0x200A
    || n == 0x2028 || n == 0x2029 || n == 0x202F || n == 0x205F || n == 0x3000
  }

  predicate IsWord(s: string) { s != "" && forall i | 0 <= i < |s| :: !IsSpace(s[i]) }

  /** How many characters come before the first white space. */
  function WordLength(s: string): (n: nat)
    ensures n <= |s| && (forall i | 0 <= i < n :: !IsSpace(s[i])) && (n < |s| ==> IsSpace(s[n]))
  {
    if s == "" || IsSpace(s[0]) then 0 else 1 + WordLength(s[1..])
  }

  function Words(s: string): (words: seq<string>)
    ensures forall i | 0 <= i < |words| :: IsWord(words[i])
    decreases |s|
  {
    if s == "" then []
    else if IsSpace(s[0]) then Words(s[1..])
    else var n := WordLength(s); [s[..n]] + Words(s[n..])
  }

  function StripReturn(s: string): string { if s != "" && s[|s|-1] == '\r' then s[..|s|-1] else s }

  /** Rust's lines: a line ends at '\n' or "\r\n"; nothing follows the last line end. */
  function Lines(s: string): seq<string>
    decreases |s|
  {
    match SplitOnce(s, '\n')
    case None => if s == "" then [] else [s]
    case Some((a, b)) => SplitShortens(s, '\n'); [StripReturn(a)] + Lines(b)
  }

  lemma {:induction false} SplitShortens(s: string, c: char)
    ensures SplitOnce(s, c).Some? ==> |SplitOnce(s, c).value.1| < |s|
  {
    if s != "" { SplitShortens(s[1..], c); }
  }

  lemma {:induction false} WordLengthIs(w: string, rest: string)
    requires (forall i | 0 <= i < |w| :: !IsSpace(w[i])) && (rest == "" || IsSpace(rest[0]))
    ensures WordLength(w + rest) == |w|
  {
    if w == "" {
      assert w + rest == rest;
    } else {
      WordLengthIs(w[1..], rest);
      assert (w + rest)[1..] == w[1..] + rest;
    }
  }

  lemma {:induction false} FirstWord(w: string, rest: string)
    requires IsWord(w) && (rest == "" || IsSpace(rest[0]))
    ensures Words(w + rest) == [w] + Words(rest)
  {
    var s := w + rest;
    WordLengthIs(w, rest);
    assert s[0] == w[0] && s[..|w|] == w && s[|w|..] == rest;
  }

  lemma {:induction false} WordThenSpace(w: string, rest: string)
    requires IsWord(w)
    ensures Words(w + ([' '] + rest)) == [w] + Words(rest)
  {
    FirstWord(w, [' '] + rest);
    assert ([' '] + rest)[1..] == rest;
  }

  lemma {:induction false} LastWord(w: string)
    requires IsWord(w)
    ensures Words(w) == [w]
  {
    FirstWord(w, "");
    assert w + "" == w;
  }

  // ---- one entry, one line ----

  function JoinWords(words: seq<string>): string
    requires |words| > 0
  {
    if |words| == 1 then words[0] else words[0] + ([' '] + JoinWords(words[1..]))
  }

  function LineWords(k: Key, e: Entry): seq<string> {
    [k.item, Display(e.frameIdx), Display(k.posMs), Display(k.width), Display(e.size), Display(e.writtenAt),
     Display(e.videoMtime)]
  }

  function Line(k: Key, e: Entry): string { JoinWords(LineWords(k, e)) }

  lemma {:induction false} WordsOfJoined(words: seq<string>)
    requires |words| > 0 && forall i | 0 <= i < |words| :: IsWord(words[i])
    ensures Words(JoinWords(words)) == words
  {
    if |words| == 1 {
      LastWord(words[0]);
    } else {
      WordsOfJoined(words[1..]);
      WordThenSpace(words[0], JoinWords(words[1..]));
    }
  }

  lemma DisplayIsWord(n: int)
    ensures IsWord(Display(n))
  {
    PaddedIsNumberText(n, 0);
  }

  datatype Parsed = Skipped | Bad | Got(key: Key, entry: Entry)

  /** What load_index makes of one line: too few words are skipped, a bad number fails the whole load. */
  function ParseLine(line: string): Parsed { ParseParts(Words(line)) }

  function ParseParts(parts: seq<string>): Parsed {
    if |parts| < 6 then Skipped
    else
      match ParseInt(parts[1], I64_MIN, I64_MAX) case None => Bad case Some(frameIdx) =>
      match ParseInt(parts[2], I64_MIN, I64_MAX) case None => Bad case Some(posMs) =>
      match ParseInt(parts[3], 0, U32_MAX) case None => Bad case Some(width) =>
      match ParseInt(parts[4], 0, U64_MAX) case None => Bad case Some(size) =>
      match ParseInt(parts[5], 0, U64_MAX) case None => Bad case Some(ts) =>
      Got(Key(parts[0], posMs, width), Entry(frameIdx, size, ts, if |parts| > 6 then ParseMtime(parts[6]) else 0))
  }

  function ParseMtime(s: string): U64 { match ParseInt(s, 0, U64_MAX) case Some(v) => v case None => 0 }

  lemma LineWordsAreWords(k: Key, e: Entry)
    requires IsWord(k.item)
    ensures forall i | 0 <= i < |LineWords(k, e)| :: IsWord(LineWords(k, e)[i])
  {
    DisplayIsWord(e.frameIdx);
    DisplayIsWord(k.posMs);
    DisplayIsWord(k.width);
    DisplayIsWord(e.size);
    DisplayIsWord(e.writtenAt);
    DisplayIsWord(e.videoMtime);
  }

  lemma PartsRoundTrip(item: string, frameIdx: I64, posMs: I64, width: U32, size: U64, ts: U64, mtime: U64)
    ensures ParseParts([item, Display(frameIdx), Display(posMs), Display(width), Display(size), Display(ts),
                        Display(mtime)])
         == Got(Key(item, posMs, width), Entry(frameIdx, size, ts, mtime))
  {
    ParsePadded(frameIdx, 0, I64_MIN, I64_MAX);
    ParsePadded(posMs, 0, I64_MIN, I64_MAX);
    ParsePadded(width, 0, 0, U32_MAX);
    ParsePadded(size, 0, 0, U64_MAX);
    ParsePadded(ts, 0, 0, U64_MAX);
    ParsePadded(mtime, 0, 0, U64_MAX);
    PartsAre(item, Display(frameIdx), Display(posMs), Display(width), Display(size), Display(ts), Display(mtime),
             frameIdx, posMs, width, size, ts, mtime);
  }

  lemma PartsAre(item: string, p1: string, p2: string, p3: string, p4: string, p5: string, p6: string,
                 frameIdx: I64, posMs: I64, width: U32, size: U64, ts: U64, mtime: U64)
    requires ParseInt(p1, I64_MIN, I64_MAX) == Some(frameIdx) && ParseInt(p2, I64_MIN, I64_MAX) == Some(posMs)
    requires ParseInt(p3, 0, U32_MAX) == Some(width) && ParseInt(p4, 0, U64_MAX) == Some(size)
    requires ParseInt(p5, 0, U64_MAX) == Some(ts) && ParseInt(p6, 0, U64_MAX) == Some(mtime)
    ensures ParseParts([item, p1, p2, p3, p4, p5, p6]) == Got(Key(item, posMs, width), Entry(frameIdx, size, ts, mtime))
  {
  }

  /** A line without the seventh word, or whose seventh word is no number, is read as one whose video's time is 0; one
      with fewer than six is skipped. */
  lemma OldLinesAreRead(item: string, frameIdx: I64, posMs: I64, width: U32, size: U64, ts: U64, rest: seq<string>)
    requires rest == [] || ParseInt(rest[0], 0, U64_MAX) == None
    ensures ParseParts([item, Display(frameIdx), Display(posMs), Display(width), Display(size), Display(ts)] + rest)
         == Got(Key(item, posMs, width), Entry(frameIdx, size, ts, 0))
    ensures forall parts: seq<string> | |parts| < 6 :: ParseParts(parts) == Skipped
  {
    ParsePadded(frameIdx, 0, I64_MIN, I64_MAX);
    ParsePadded(posMs, 0, I64_MIN, I64_MAX);
    ParsePadded(width, 0, 0, U32_MAX);
    ParsePadded(size, 0, 0, U64_MAX);
    ParsePadded(ts, 0, 0, U64_MAX);
    OldPartsAre(item, Display(frameIdx), Display(posMs), Display(width), Display(size), Display(ts), rest, frameIdx,
                posMs, width, size, ts);
  }

  lemma OldPartsAre(item: string, p1: string, p2: string, p3: string, p4: string, p5: string, rest: seq<string>,
                    frameIdx: I64, posMs: I64, width: U32, size: U64, ts: U64)
    requires ParseInt(p1, I64_MIN, I64_MAX) == Some(frameIdx) && ParseInt(p2, I64_MIN, I64_MAX) == Some(posMs)
    requires ParseInt(p3, 0, U32_MAX) == Some(width) && ParseInt(p4, 0, U64_MAX) == Some(size)
    requires ParseInt(p5, 0, U64_MAX) == Some(ts) && (rest == [] || ParseInt(rest[0], 0, U64_MAX) == None)
    ensures ParseParts([item, p1, p2, p3, p4, p5] + rest) == Got(Key(item, posMs, width), Entry(frameIdx, size, ts, 0))
  {
    var first := [item, p1, p2, p3, p4, p5];
    var parts := first + rest;
    assert parts[0] == item && parts[1] == p1 && parts[2] == p2 && parts[3] == p3 && parts[4] == p4 && parts[5] == p5;
    if rest != [] { assert parts[6] == rest[0]; }
  }

  lemma LineRoundTrip(k: Key, e: Entry)
    requires IsWord(k.item)
    ensures ParseLine(Line(k, e)) == Got(k, e)
  {
    LineWordsAreWords(k, e);
    WordsOfJoined(LineWords(k, e));
    PartsRoundTrip(k.item, e.frameIdx, k.posMs, k.width, e.size, e.writtenAt, e.videoMtime);
  }

  // ---- the whole text ----

  function Body(entries: map<Key, Entry>, order: seq<Key>): string
    requires forall i | 0 <= i < |order| :: order[i] in entries
  {
    if order == [] then "" else Line(order[0], entries[order[0]]) + (['\n'] + Body(entries, order[1..]))
  }

  function Printed(idx: Index, order: seq<Key>): string
    requires forall i | 0 <= i < |order| :: order[i] in idx.entries
  {
    Header(idx.total) + Body(idx.entries, order)
  }

  function TotalLine(total: nat): string { "total_bytes " + Display(total) }
  function Header(total: nat): string { "v2" + (['\n'] + (TotalLine(total) + ['\n'])) }

  /** Some order in which the hash map may yield its entries. */
  ghost predicate IsOrderOf(order: seq<Key>, entries: map<Key, Entry>) {
    && (forall k :: k in order <==> k in entries)
    && (forall i, j | 0 <= i < j < |order| :: order[i] != order[j])
  }

  method WriteIndex(idx: Index, order: seq<Key>) returns (text: string)
    requires IsOrderOf(order, idx.entries)
    ensures text == Printed(idx, order)
  {
    text := Header(idx.total);
    assert order[0..] == order;
    for i := 0 to |order|
      invariant PrintedFrom(idx, order, i, text)
    {
      PrintOne(idx, order, i, text);
      text := text + (Line(order[i], idx.entries[order[i]]) + ['\n']);
    }
    assert Body(idx.entries, order[|order|..]) == "";
  }

  /** `text` lacks only the lines of order[i..]. */
  ghost predicate PrintedFrom(idx: Index, order: seq<Key>, i: nat, text: string)
    requires i <= |order| && forall i | 0 <= i < |order| :: order[i] in idx.entries
  {
    text + Body(idx.entries, order[i..]) == Printed(idx, order)
  }

  lemma PrintOne(idx: Index, order: seq<Key>, i: nat, text: string)
    requires i < |order| && forall i | 0 <= i < |order| :: order[i] in idx.entries
    requires PrintedFrom(idx, order, i, text)
    ensures PrintedFrom(idx, order, i + 1, text + (Line(order[i], idx.entries[order[i]]) + ['\n']))
  {
    var k := order[i];
    var line, rest := Line(k, idx.entries[k]), Body(idx.entries, order[i+1..]);
    assert order[i..][0] == k && order[i..][1..] == order[i+1..];
    assert Body(idx.entries, order[i..]) == line + (['\n'] + rest);
    LineBreak(text, line, rest);
  }

  lemma LineBreak(text: string, line: string, rest: string)
    ensures text + (line + ['\n']) + rest == text + (line + (['\n'] + rest))
  {
  }

  /** Which cached files are on disk: item directory and frame. */
  type Disk = (string, Frame) -> bool

  /** The loop of load_index from some state on: None as soon as a line is bad. */
  function LoadFrom(lines: seq<string>, entries: map<Key, Entry>, disk: Disk): Option<map<Key, Entry>> {
    if lines == [] then Some(entries)
    else match ParseLine(lines[0])
      case Bad => None
      case Skipped => LoadFrom(lines[1..], entries, disk)
      case Got(k, e) => LoadFrom(lines[1..], if disk(k.item, FrameOf(k, e)) then entries[k := e] else entries, disk)
  }

  /** None stands for every error of load_index. */
  function Loaded(text: string, disk: Disk): Option<Index> { LoadLines(Lines(text), disk) }

  function LoadLines(lines: seq<string>, disk: Disk): Option<Index> {
    if |lines| < 2 || lines[0] != "v2" then None
    else match ParseTotal(lines[1])
      case None => None
      case Some(total) =>
        match LoadFrom(lines[2..], map[], disk)
        case None => None
        case Some(entries) => Some(Index(entries, total))
  }

  function ParseTotal(line: string): Option<int> {
    match StripPrefix(line, "total_bytes ")
    case None => None
    case Some(digits) => ParseInt(digits, 0, U64_MAX)
  }

  function StripPrefix(s: string, prefix: string): Option<string> {
    if prefix <= s then Some(s[|prefix|..]) else None
  }

  method LoadIndex(text: string, disk: Disk) returns (idx: Option<Index>)
    ensures idx == Loaded(text, disk)
  {
    var lines := Lines(text);
    if |lines| == 0 || lines[0] != "v2" { return None; }
    if |lines| == 1 { return None; }
    var total := ParseTotal(lines[1]);
    if total.None? { return None; }
    var entries: map<Key, Entry> := map[];
    for i := 2 to |lines|
      invariant LoadFrom(lines[i..], entries, disk) == LoadFrom(lines[2..], map[], disk)
    {
      assert lines[i..][0] == lines[i] && lines[i..][1..] == lines[i+1..];
      var p := ParseLine(lines[i]);
      if p.Bad? { return None; }
      if p.Got? && disk(p.key.item, FrameOf(p.key, p.entry)) {
        entries := entries[p.key := p.entry];
      }
    }
    idx := Some(Index(entries, total.value));
  }

  lemma {:induction false} LinesCons(line: string, rest: string)
    requires '\n' !in line && (line == "" || line[|line|-1] != '\r')
    ensures Lines(line + (['\n'] + rest)) == [line] + Lines(rest)
  {
    SplitAtFirst(line, '\n', rest);
  }

  lemma {:induction false} SplitExtended(s: string, c: char, t: string)
    ensures SplitOnce(s, c).Some? ==>
              SplitOnce(s + t, c) == Some((SplitOnce(s, c).value.0, SplitOnce(s, c).value.1 + t))
    ensures SplitOnce(s, c).None? ==> c !in s
    ensures SplitOnce(s, c).Some? ==> s == SplitOnce(s, c).value.0 + [c] + SplitOnce(s, c).value.1
  {
    if s != "" {
      SplitExtended(s[1..], c, t);
      assert (s + t)[1..] == s[1..] + t;
    }
  }

  /** The last line needs no line end. */
  lemma {:induction false} LastLineEndIsOptional(s: string)
    requires s != "" && s[|s|-1] != '\n' && s[|s|-1] != '\r'
    ensures Lines(s + ['\n']) == Lines(s)
    decreases |s|
  {
    SplitExtended(s, '\n', ['\n']);
    match SplitOnce(s, '\n')
    case None =>
      SplitAtFirst(s, '\n', "");
      assert s + (['\n'] + "") == s + ['\n'];
    case Some((a, b)) =>
      SplitShortens(s, '\n');
      assert b != "" && b[|b|-1] == s[|s|-1];
      LastLineEndIsOptional(b);
  }

  lemma {:induction false} JoinedIsOneLine(words: seq<string>)
    requires |words| > 0 && forall i | 0 <= i < |words| :: IsWord(words[i])
    ensures JoinWords(words) != "" && '\n' !in JoinWords(words)
    ensures !IsSpace(JoinWords(words)[|JoinWords(words)|-1])
  {
    if |words| > 1 { JoinedIsOneLine(words[1..]); }
  }

  lemma LineIsOneLine(k: Key, e: Entry)
    requires IsWord(k.item)
    ensures '\n' !in Line(k, e) && (Line(k, e) == "" || Line(k, e)[|Line(k, e)|-1] != '\r')
  {
    LineWordsAreWords(k, e);
    JoinedIsOneLine(LineWords(k, e));
  }

  ghost function OnDisk(entries: map<Key, Entry>, order: seq<Key>, disk: Disk): map<Key, Entry> {
    map k | k in entries && k in order && disk(k.item, FrameOf(k, entries[k])) :: entries[k]
  }

  lemma {:induction false} BodyRoundTrip(entries: map<Key, Entry>, order: seq<Key>, disk: Disk, acc: map<Key, Entry>)
    requires forall i | 0 <= i < |order| :: order[i] in entries && IsWord(order[i].item)
    ensures LoadFrom(Lines(Body(entries, order)), acc, disk) == Some(acc + OnDisk(entries, order, disk))
  {
    if order == [] {
      assert acc + OnDisk(entries, order, disk) == acc;
    } else {
      var k, rest := order[0], order[1..];
      var e := entries[k];
      LineIsOneLine(k, e);
      LinesCons(Line(k, e), Body(entries, rest));
      LineRoundTrip(k, e);
      var acc1 := if disk(k.item, FrameOf(k, e)) then acc[k := e] else acc;
      BodyRoundTrip(entries, rest, disk, acc1);
      OnDiskCons(entries, order, disk, acc);
    }
  }

  lemma OnDiskCons(entries: map<Key, Entry>, order: seq<Key>, disk: Disk, acc: map<Key, Entry>)
    requires order != [] && order[0] in entries
    ensures var k, e := order[0], entries[order[0]];
            (if disk(k.item, FrameOf(k, e)) then acc[k := e] else acc) + OnDisk(entries, order[1..], disk)
            == acc + OnDisk(entries, order, disk)
  {
    assert forall k :: k in order <==> k == order[0] || k in order[1..];
  }

  lemma TotalRoundTrip(total: nat)
    requires total <= U64_MAX
    ensures ParseTotal(TotalLine(total)) == Some(total)
  {
    assert StripPrefix(TotalLine(total), "total_bytes ") == Some(Display(total));
    ParsePadded(total, 0, 0, U64_MAX);
  }

  lemma TotalIsOneLine(total: nat)
    ensures '\n' !in TotalLine(total) && TotalLine(total)[|TotalLine(total)|-1] != '\r'
  {
    PaddedIsNumberText(total, 0);
    var digits := Display(total);
    assert forall i | 0 <= i < |digits| :: IsNumberChar(digits[i]);
    assert TotalLine(total)[|TotalLine(total)|-1] == digits[|digits|-1];
  }

  lemma {:induction false} HeaderLines(total: nat, body: string)
    ensures Lines(Header(total) + body) == ["v2", TotalLine(total)] + Lines(body)
  {
    TotalIsOneLine(total);
    LinesCons(TotalLine(total), body);
    LinesCons("v2", TotalLine(total) + (['\n'] + body));
    assert Header(total) + body == "v2" + (['\n'] + (TotalLine(total) + (['\n'] + body)));
  }

  /** Whatever order the map was printed in, loading gives back the total and the entries whose files are still
      there. */
  lemma IndexRoundTrip(idx: Index, order: seq<Key>, disk: Disk)
    requires IsOrderOf(order, idx.entries) && idx.total <= U64_MAX
    requires forall k | k in idx.entries :: IsWord(k.item)
    ensures Loaded(Printed(idx, order), disk)
         == Some(Index(map k | k in idx.entries && disk(k.item, FrameOf(k, idx.entries[k])) ::
                       idx.entries[k], idx.total))
  {
    var body := Body(idx.entries, order);
    HeaderLines(idx.total, body);
    TotalRoundTrip(idx.total);
    assert (["v2", TotalLine(idx.total)] + Lines(body))[2..] == Lines(body);
    BodyRoundTrip(idx.entries, order, disk, map[]);
    assert map[] + OnDisk(idx.entries, order, disk)
        == map k | k in idx.entries && disk(k.item, FrameOf(k, idx.entries[k])) :: idx.entries[k];
  }

  lemma {:induction false} LoadedItemsAreWords(lines: seq<string>, acc: map<Key, Entry>, disk: Disk)
    requires forall k | k in acc :: IsWord(k.item)
    ensures LoadFrom(lines, acc, disk).Some? ==> forall k | k in LoadFrom(lines, acc, disk).value :: IsWord(k.item)
  {
    if lines != [] {
      match ParseLine(lines[0])
      case Bad =>
      case Skipped => LoadedItemsAreWords(lines[1..], acc, disk);
      case Got(k, e) =>
        assert IsWord(Words(lines[0])[0]);
        LoadedItemsAreWords(lines[1..], if disk(k.item, FrameOf(k, e)) then acc[k := e] else acc, disk);
    }
  }

  /** With all files on disk, an index survives being printed and loaded exactly when
      every item id is a non-empty string without white space. */
  lemma IndexRoundTripIff(idx: Index, order: seq<Key>, disk: Disk)
    requires IsOrderOf(order, idx.entries) && idx.total <= U64_MAX
    requires forall k | k in idx.entries :: disk(k.item, FrameOf(k, idx.entries[k]))
    ensures Loaded(Printed(idx, order), disk) == Some(idx) <==> forall k | k in idx.entries :: IsWord(k.item)
  {
    if forall k | k in idx.entries :: IsWord(k.item) {
      IndexRoundTrip(idx, order, disk);
      assert (map k | k in idx.entries && disk(k.item, FrameOf(k, idx.entries[k])) :: idx.entries[k]) == idx.entries;
    } else {
      var lines := Lines(Printed(idx, order));
      if |lines| >= 2 { LoadedItemsAreWords(lines[2..], map[], disk); }
    }
  }

  // ---- sizes ----

  ghost function SizeSum(entries: map<Key, Entry>): nat
    decreases |entries|
  {
    if entries == map[] then 0
    else
      var k :| k in entries;
      entries[k].size + SizeSum(entries - {k})
  }

  lemma {:induction false} SizeSumWithout(entries: map<Key, Entry>, k: Key)
    requires k in entries
    ensures SizeSum(entries) == entries[k].size + SizeSum(entries - {k})
    decreases |entries|
  {
    var c :| c in entries && SizeSum(entries) == entries[c].size + SizeSum(entries - {c});
    if c != k {
      SizeSumWithout(entries - {c}, k);
      SizeSumWithout(entries - {k}, c);
      assert entries - {c} - {k} == entries - {k} - {c};
    }
  }

  lemma SizeSumWith(entries: map<Key, Entry>, k: Key, e: Entry)
    ensures SizeSum(entries[k := e]) == e.size + SizeSum(entries - {k})
  {
    SizeSumWithout(entries[k := e], k);
    assert entries[k := e] - {k} == entries - {k};
  }

  // ---- rebuilding from a directory listing ----

  datatype Meta = Meta(size: U64, modified: U64)
  datatype File = File(name: string, meta: Option<Meta>)
  datatype Dir = Dir(item: string, files: Option<seq<File>>)

  /** A file that belongs to the cache. */
  datatype Located = Located(key: Key, entry: Entry)

  /** None for files with other names and for files whose metadata cannot be read. */
  function Recognise(item: string, file: File): Option<Located> {
    match ParseFileName(file.name) case None => None case Some(frame) =>
    match file.meta case None => None case Some(meta) =>
    Some(Located(Key(item, frame.posMs, frame.width), Entry(frame.idx, meta.size, meta.modified, 0)))
  }

  function AddFile(idx: Index, f: Option<Located>): Index {
    match f
    case None => idx
    case Some(l) => Index(idx.entries[l.key := l.entry], idx.total + l.entry.size)
  }

  function RebuiltFrom(found: seq<Option<Located>>): Index {
    if found == [] then Index(map[], 0) else AddFile(RebuiltFrom(found[..|found|-1]), found[|found|-1])
  }

  function FilesOf(d: Dir): seq<Option<Located>> {
    if d.item == "index.txt" || d.files.None? then []
    else seq(|d.files.value|, i requires 0 <= i < |d.files.value| => Recognise(d.item, d.files.value[i]))
  }

  function Flat<T>(parts: seq<seq<T>>): seq<T> {
    if parts == [] then [] else Flat(parts[..|parts|-1]) + parts[|parts|-1]
  }

  function Parts(dirs: seq<Dir>): (parts: seq<seq<Option<Located>>>)
    ensures |parts| == |dirs| && forall i | 0 <= i < |dirs| :: parts[i] == FilesOf(dirs[i])
  {
    seq(|dirs|, i requires 0 <= i < |dirs| => FilesOf(dirs[i]))
  }

  function AllFiles(dirs: seq<Dir>): seq<Option<Located>> { Flat(Parts(dirs)) }

  lemma AllFilesOfOneMore(dirs: seq<Dir>, i: nat)
    requires i < |dirs|
    ensures AllFiles(dirs[..i+1]) == AllFiles(dirs[..i]) + FilesOf(dirs[i])
  {
    assert Parts(dirs[..i+1])[..i] == Parts(dirs[..i]);
  }

  function Rebuilt(dirs: Option<seq<Dir>>): Index {
    if dirs.None? then Index(map[], 0) else RebuiltFrom(AllFiles(dirs.value))
  }

  method RebuildDir(idx0: Index, d: Dir, ghost before: seq<Option<Located>>) returns (idx: Index)
    requires idx0 == RebuiltFrom(before)
    ensures idx == RebuiltFrom(before + FilesOf(d))
  {
    idx := idx0;
    if d.item == "index.txt" || d.files.None? {
      assert before + FilesOf(d) == before;
      return;
    }
    var files := d.files.value;
    ghost var found := FilesOf(d);
    assert before + found[..0] == before;
    for j := 0 to |files|
      invariant idx == RebuiltFrom(before + found[..j])
    {
      AddedLast(before, found, j);
      assert found[j] == Recognise(d.item, files[j]);
      var frame := ParseFileName(files[j].name);
      if frame.None? { continue; }
      if files[j].meta.None? { continue; }
      var meta := files[j].meta.value;
      idx := Index(idx.entries[Key(d.item, frame.value.posMs, frame.value.width) :=
                               Entry(frame.value.idx, meta.size, meta.modified, 0)],
                   idx.total + meta.size);
    }
    assert found[..|files|] == found;
  }

  lemma {:induction false} AddedLast(before: seq<Option<Located>>, found: seq<Option<Located>>, j: nat)
    requires j < |found|
    ensures RebuiltFrom(before + found[..j+1]) == AddFile(RebuiltFrom(before + found[..j]), found[j])
  {
    var all := before + found[..j+1];
    assert all[..|all|-1] == before + found[..j] && all[|all|-1] == found[j];
  }

  method RebuildIndex(dirs: Option<seq<Dir>>) returns (idx: Index)
    ensures idx == Rebuilt(dirs)
  {
    if dirs.None? { return Index(map[], 0); }
    idx := Index(map[], 0);
    for i := 0 to |dirs.value|
      invariant idx == RebuiltFrom(AllFiles(dirs.value[..i]))
    {
      AllFilesOfOneMore(dirs.value, i);
      idx := RebuildDir(idx, dirs.value[i], AllFiles(dirs.value[..i]));
    }
    assert dirs.value[..|dirs.value|] == dirs.value;
  }

  ghost predicate Holds(f: Option<Located>, k: Key) { f.Some? && f.value.key == k }

  /** found[i] is the last file listed for key k. */
  ghost predicate IsLastFor(found: seq<Option<Located>>, k: Key, i: nat) {
    i < |found| && Holds(found[i], k) && forall j | i < j < |found| :: !Holds(found[j], k)
  }

  /** The rebuilt index has an entry for exactly the keys some file is there for, and it describes the last such file
      listed. */
  lemma {:induction false} RebuildFindsEveryFile(found: seq<Option<Located>>, k: Key) returns (i: int)
    ensures k !in RebuiltFrom(found).entries ==> i == -1 && forall j | 0 <= j < |found| :: !Holds(found[j], k)
    ensures k in RebuiltFrom(found).entries ==>
              0 <= i && IsLastFor(found, k, i) && RebuiltFrom(found).entries[k] == found[i].value.entry
  {
    if found == [] {
      i := -1;
    } else {
      var front := found[..|found|-1];
      i := RebuildFindsEveryFile(front, k);
      if Holds(found[|found|-1], k) { i := |found| - 1; }
    }
  }

  /** A later file has the same key as file i. */
  ghost predicate IsDisplaced(found: seq<Option<Located>>, i: nat) {
    i < |found| && found[i].Some? && exists j | i < j < |found| :: Holds(found[j], found[i].value.key)
  }

  /** The bytes of the first n files that are displaced by later ones. */
  ghost function DisplacedBytes(found: seq<Option<Located>>, n: nat): nat
    requires n <= |found|
  {
    if n == 0 then 0
    else DisplacedBytes(found, n - 1) + if IsDisplaced(found, n - 1) then found[n-1].value.entry.size else 0
  }

  ghost predicate Displaces(front: seq<Option<Located>>, last: Option<Located>, i: nat) {
    last.Some? && IsLastFor(front, last.value.key, i)
  }

  /** One more file displaces the last one of its key, if there is one. */
  lemma DisplacedByOneMore(found: seq<Option<Located>>, i: nat)
    requires i + 1 < |found|
    ensures var front, last := found[..|found|-1], found[|found|-1];
            IsDisplaced(found, i) <==>
            IsDisplaced(front, i) || Displaces(front, last, i)
  {
    var front, last := found[..|found|-1], found[|found|-1];
    if j :| i < j < |found| && found[i].Some? && Holds(found[j], found[i].value.key) {
      assert j < |front| ==> Holds(front[j], front[i].value.key);
    }
    if j :| i < j < |front| && front[i].Some? && Holds(front[j], front[i].value.key) {
      assert Holds(found[j], found[i].value.key);
    }
  }

  lemma {:induction false} DisplacedGrows(found: seq<Option<Located>>, n: nat, i: int)
    requires found != [] && n < |found|
    requires var front, last := found[..|found|-1], found[|found|-1];
             if i < 0 then forall k: nat :: !Displaces(front, last, k) else Displaces(front, last, i)
    ensures var front := found[..|found|-1];
            DisplacedBytes(found, n) == DisplacedBytes(front, n) + if 0 <= i < n then found[i].value.entry.size else 0
  {
    if n > 0 {
      var front := found[..|found|-1];
      DisplacedGrows(found, n - 1, i);
      DisplacedByOneMore(found, n - 1);
      assert IsDisplaced(front, n - 1) ==> !Displaces(front, found[|found|-1], n - 1);
      assert Displaces(front, found[|found|-1], n - 1) ==> n - 1 == i;
    }
  }

  /** The rebuilt total is what the rebuilt entries take, and the bytes of every file that a later one displaced. */
  lemma {:induction false} RebuildCountsDisplacedFiles(found: seq<Option<Located>>)
    ensures RebuiltFrom(found).total == SizeSum(RebuiltFrom(found).entries) + DisplacedBytes(found, |found|)
  {
    if found != [] {
      var front, last := found[..|found|-1], found[|found|-1];
      RebuildCountsDisplacedFiles(front);
      var idx, i := RebuiltFrom(front), -1;
      if last.Some? {
        var k := last.value.key;
        i := RebuildFindsEveryFile(front, k);
        SizeSumWith(idx.entries, k, last.value.entry);
        if k in idx.entries { SizeSumWithout(idx.entries, k); } else { assert idx.entries - {k} == idx.entries; }
      }
      DisplacedGrows(found, |front|, i);
      assert !IsDisplaced(found, |front|);
    }
  }

  lemma {:induction false} NothingDisplacedIff(found: seq<Option<Located>>, n: nat)
    requires n <= |found|
    ensures DisplacedBytes(found, n) == 0 <==>
            forall i | 0 <= i < n && IsDisplaced(found, i) :: found[i].value.entry.size == 0
  {
    if n > 0 { NothingDisplacedIff(found, n - 1); }
  }

  /** So it never under-counts, and is exact if and only if no displaced file has a byte. */
  lemma {:induction false} RebuildNeverUndercounts(found: seq<Option<Located>>)
    ensures RebuiltFrom(found).total >= SizeSum(RebuiltFrom(found).entries)
    ensures RebuiltFrom(found).total == SizeSum(RebuiltFrom(found).entries) <==>
            forall i | 0 <= i < |found| && IsDisplaced(found, i) :: found[i].value.entry.size == 0
  {
    RebuildCountsDisplacedFiles(found);
    NothingDisplacedIff(found, |found|);
  }

  /** found lists the file of entry e under its printed name. */
  ghost predicate Lists(item: string, files: seq<File>, k: Key, e: Entry) {
    item == k.item && exists i :: 0 <= i < |files| && IsFileOf(files[i], k, e)
  }

  ghost predicate IsFileOf(f: File, k: Key, e: Entry) {
    f.name == FileName(FrameOf(k, e)) && f.meta.Some? && f.meta.value.size == e.size
  }

  lemma RecogniseFileOf(item: string, f: File, k: Key, e: Entry)
    requires item == k.item && IsFileOf(f, k, e)
    ensures Recognise(item, f) == Some(Located(k, Entry(e.frameIdx, e.size, f.meta.value.modified, 0)))
  {
    FileNameRoundTrip(FrameOf(k, e));
  }

  /** The entries of one item as rebuilding finds them: same frames and sizes, but no recorded video time. */
  ghost predicate SameButTimes(e: Entry, original: Entry) {
    e.frameIdx == original.frameIdx && e.size == original.size && e.videoMtime == 0
  }

  ghost predicate IsAnEntry(f: Option<Located>, entries: map<Key, Entry>) {
    f.Some? && f.value.key in entries && SameButTimes(f.value.entry, entries[f.value.key])
  }

  lemma ListedFileIsAnEntry(d: Dir, entries: map<Key, Entry>, i: nat, k: Key)
    requires d.item != "index.txt" && d.files.Some? && i < |d.files.value|
    requires k in entries && k.item == d.item && IsFileOf(d.files.value[i], k, entries[k])
    ensures i < |FilesOf(d)| && IsAnEntry(FilesOf(d)[i], entries) && Holds(FilesOf(d)[i], k)
  {
    RecogniseFileOf(d.item, d.files.value[i], k, entries[k]);
  }

  ghost predicate HasFile(found: seq<Option<Located>>, k: Key) { exists i :: 0 <= i < |found| && Holds(found[i], k) }

  lemma {:induction false} RebuiltEntry(found: seq<Option<Located>>, entries: map<Key, Entry>, k: Key)
    requires forall i | 0 <= i < |found| :: IsAnEntry(found[i], entries)
    requires k in entries ==> HasFile(found, k)
    ensures k in RebuiltFrom(found).entries <==> k in entries
    ensures k in entries ==> SameButTimes(RebuiltFrom(found).entries[k], entries[k])
  {
    var i := RebuildFindsEveryFile(found, k);
    if i >= 0 { assert IsAnEntry(found[i], entries); }
  }

  lemma {:induction false} RebuiltEntries(found: seq<Option<Located>>, entries: map<Key, Entry>)
    requires forall i | 0 <= i < |found| :: IsAnEntry(found[i], entries)
    requires forall k | k in entries :: HasFile(found, k)
    ensures RebuiltFrom(found).entries.Keys == entries.Keys
    ensures forall k | k in entries :: SameButTimes(RebuiltFrom(found).entries[k], entries[k])
  {
    forall k
      ensures k in RebuiltFrom(found).entries <==> k in entries
      ensures k in entries ==> SameButTimes(RebuiltFrom(found).entries[k], entries[k])
    {
      RebuiltEntry(found, entries, k);
    }
  }

  // ---- a whole cache directory ----

  predicate IsItemDir(d: Dir) { d.item != "index.txt" && d.files.Some? }

  /** f is the file of one of the item's entries. */
  ghost predicate BelongsTo(item: string, f: File, entries: map<Key, Entry>) {
    exists k :: k in entries && k.item == item && IsFileOf(f, k, entries[k])
  }

  ghost predicate OnlyEntries(d: Dir, entries: map<Key, Entry>) {
    IsItemDir(d) ==> forall j | 0 <= j < |d.files.value| :: BelongsTo(d.item, d.files.value[j], entries)
  }

  ghost predicate IsListed(dirs: seq<Dir>, k: Key, e: Entry) {
    exists i :: 0 <= i < |dirs| && IsItemDir(dirs[i]) && Lists(dirs[i].item, dirs[i].files.value, k, e)
  }

  /** The readable item directories hold a file for each entry, and no others. */
  ghost predicate HoldExactly(dirs: seq<Dir>, entries: map<Key, Entry>) {
    && (forall i | 0 <= i < |dirs| :: OnlyEntries(dirs[i], entries))
    && (forall k | k in entries :: IsListed(dirs, k, entries[k]))
  }

  lemma FileOfDirIsAnEntry(d: Dir, entries: map<Key, Entry>, j: nat)
    requires OnlyEntries(d, entries) && j < |FilesOf(d)|
    ensures IsAnEntry(FilesOf(d)[j], entries)
  {
    assert BelongsTo(d.item, d.files.value[j], entries);
    var k :| k in entries && k.item == d.item && IsFileOf(d.files.value[j], k, entries[k]);
    ListedFileIsAnEntry(d, entries, j, k);
  }

  /** Whatever holds of every element of every part holds of every element of the whole, and every part is in the
      whole. */
  lemma {:induction false} FlatHolds<T>(parts: seq<seq<T>>, p: T -> bool, n: nat)
    requires (forall i, j | 0 <= i < |parts| && 0 <= j < |parts[i]| :: p(parts[i][j])) && n < |Flat(parts)|
    ensures p(Flat(parts)[n])
    decreases |parts|
  {
    var front, last := parts[..|parts|-1], |parts| - 1;
    var before := Flat(front);
    if n < |before| {
      forall i, j | 0 <= i < |front| && 0 <= j < |front[i]|
        ensures p(front[i][j])
      {
        assert front[i] == parts[i];
      }
      FlatHolds(front, p, n);
    } else {
      assert p(parts[last][n - |before|]);
    }
  }

  lemma {:induction false} InFlat<T>(parts: seq<seq<T>>, i: nat, x: T)
    requires i < |parts| && x in parts[i]
    ensures x in Flat(parts)
    decreases |parts|
  {
    if i < |parts| - 1 { InFlat(parts[..|parts|-1], i, x); }
  }

  lemma EveryEntryHasAFile(dirs: seq<Dir>, entries: map<Key, Entry>, k: Key)
    requires k in entries && IsListed(dirs, k, entries[k])
    ensures HasFile(AllFiles(dirs), k)
  {
    var i :| 0 <= i < |dirs| && IsItemDir(dirs[i]) && Lists(dirs[i].item, dirs[i].files.value, k, entries[k]);
    var j :| 0 <= j < |dirs[i].files.value| && IsFileOf(dirs[i].files.value[j], k, entries[k]);
    ListedFileIsAnEntry(dirs[i], entries, j, k);
    InFlat(Parts(dirs), i, FilesOf(dirs[i])[j]);
    var n :| 0 <= n < |AllFiles(dirs)| && AllFiles(dirs)[n] == FilesOf(dirs[i])[j];
    assert Holds(AllFiles(dirs)[n], k);
  }

  lemma AllFilesAreEntries(dirs: seq<Dir>, entries: map<Key, Entry>, n: nat)
    requires (forall i | 0 <= i < |dirs| :: OnlyEntries(dirs[i], entries)) && n < |AllFiles(dirs)|
    ensures IsAnEntry(AllFiles(dirs)[n], entries)
  {
    var p := (f: Option<Located>) => IsAnEntry(f, entries);
    forall i, j | 0 <= i < |dirs| && 0 <= j < |Parts(dirs)[i]|
      ensures p(Parts(dirs)[i][j])
    {
      assert OnlyEntries(dirs[i], entries);
      FileOfDirIsAnEntry(dirs[i], entries, j);
    }
    FlatHolds(Parts(dirs), p, n);
  }

  /** A cache directory that holds exactly the entries' files, in any order and among whatever else cannot be read as a
      directory, is rebuilt to exactly those entries, apart from the times. */
  lemma RebuildRecoversTheCache(dirs: seq<Dir>, entries: map<Key, Entry>)
    requires HoldExactly(dirs, entries)
    ensures Rebuilt(Some(dirs)).entries.Keys == entries.Keys
    ensures forall k | k in entries :: SameButTimes(Rebuilt(Some(dirs)).entries[k], entries[k])
  {
    var found := AllFiles(dirs);
    forall n | 0 <= n < |found|
      ensures IsAnEntry(found[n], entries)
    {
      AllFilesAreEntries(dirs, entries, n);
    }
    forall k | k in entries
      ensures HasFile(found, k)
    {
      EveryEntryHasAFile(dirs, entries, k);
    }
    RebuiltEntries(found, entries);
  }

  lemma FoundFilesHaveNoVideoTime(dirs: seq<Dir>, n: nat)
    requires n < |AllFiles(dirs)|
    ensures AllFiles(dirs)[n].Some? ==> AllFiles(dirs)[n].value.entry.videoMtime == 0
  {
    FlatHolds(Parts(dirs), (f: Option<Located>) => f.Some? ==> f.value.entry.videoMtime == 0, n);
  }

  /** No rebuilt entry has a recorded video time, whatever the directory holds. */
  lemma RebuiltEntriesHaveNoVideoTime(dirs: Option<seq<Dir>>, k: Key)
    requires k in Rebuilt(dirs).entries
    ensures Rebuilt(dirs).entries[k].videoMtime == 0
  {
    var i := RebuildFindsEveryFile(AllFiles(dirs.value), k);
    FoundFilesHaveNoVideoTime(dirs.value, i);
  }

  /** What is left of the entries is no larger than the whole. */
  lemma {:induction false} SizeSumOfFewer(some: map<Key, Entry>, all: map<Key, Entry>)
    requires forall k | k in some :: k in all && some[k] == all[k]
    ensures SizeSum(some) <= SizeSum(all)
    decreases |some|
  {
    if some != map[] {
      var k :| k in some;
      SizeSumOfFewer(some - {k}, all - {k});
      SizeSumWithout(some, k);
      SizeSumWithout(all, k);
    }
  }

  /** By how much the recorded total exceeds the entries' sizes. */
  ghost function Slack(idx: Index): int { idx.total - SizeSum(idx.entries) }

  /** A restart never makes the total under-count: not by loading a printed index of which some files are gone, ... */
  lemma LoadingKeepsSlack(idx: Index, order: seq<Key>, disk: Disk)
    requires IsOrderOf(order, idx.entries) && idx.total <= U64_MAX && Slack(idx) >= 0
    requires forall k | k in idx.entries :: IsWord(k.item)
    ensures Loaded(Printed(idx, order), disk).Some? && Slack(Loaded(Printed(idx, order), disk).value) >= Slack(idx)
  {
    IndexRoundTrip(idx, order, disk);
    SizeSumOfFewer(Loaded(Printed(idx, order), disk).value.entries, idx.entries);
  }

  /** ... nor by rebuilding it. */
  lemma RebuildingKeepsSlack(dirs: Option<seq<Dir>>)
    ensures Slack(Rebuilt(dirs)) >= 0
  {
    if dirs.Some? { RebuildNeverUndercounts(AllFiles(dirs.value)); }
  }
}
