/** Whether a socket path is bound, from the kernel's listing: `path_has_bound_socket`. Bytes are chars below 256. */
module SocketEvidence {
  import opened Json
  import opened Lines

  type Bytes = string

  // ----- paths -----

  /** `os.path.basename`. */
  function Basename(p: Bytes): Bytes {
    if '/' in p then Basename(p[1..]) else p
  }

  predicate Absolute(p: Bytes) {
    p != "" && p[0] == '/'
  }

  /** `path.split("/")`. */
  function SplitSlash(p: Bytes): (parts: seq<Bytes>)
    ensures parts != []
    ensures forall k :: 0 <= k < |parts| ==> '/' !in parts[k]
  {
    if p == "" then [""]
    else if p[0] == '/' then [""] + SplitSlash(p[1..])
    else
      var rest := SplitSlash(p[1..]);
      [[p[0]] + rest[0]] + rest[1..]
  }

  /** One turn of the loop of `posixpath.normpath`: empty parts and `.` go, `..` takes the part before it. */
  function Taken(kept: seq<Bytes>, part: Bytes, rooted: bool): seq<Bytes> {
    if part == "" || part == "." then kept
    else if part != ".." || (!rooted && kept == []) || (kept != [] && kept[|kept| - 1] == "..") then kept + [part]
    else if kept != [] then kept[..|kept| - 1] else kept
  }

  function Reduce(parts: seq<Bytes>, rooted: bool): (kept: seq<Bytes>)
    ensures (forall k :: 0 <= k < |parts| ==> '/' !in parts[k]) ==> forall k :: 0 <= k < |kept| ==> '/' !in kept[k]
  {
    if parts == [] then [] else Taken(Reduce(parts[..|parts| - 1], rooted), parts[|parts| - 1], rooted)
  }

  function JoinSlash(parts: seq<Bytes>): Bytes {
    if parts == [] then "" else if |parts| == 1 then parts[0] else parts[0] + "/" + JoinSlash(parts[1..])
  }

  /** Two leading slashes are kept as two; any other number is one. */
  function Lead(p: Bytes): Bytes {
    if !Absolute(p) then ""
    else if |p| >= 2 && p[1] == '/' && (|p| == 2 || p[2] != '/') then "//" else "/"
  }

  function Normpath(p: Bytes): Bytes {
    var s := Lead(p) + JoinSlash(Reduce(SplitSlash(p), Absolute(p)));
    if s == "" then "." else s
  }

  /** A component that names an entry: not empty, not `.`, not `..`. */
  predicate Plain(part: Bytes) { part != "" && part != "." && part != ".." }

  /** What `normpath` does with one more component: `.` and the empty one go; a plain one stays; `..` takes a plain one
      before it, goes at the root, and stays where there is nothing to take. */
  lemma OneMorePart(parts: seq<Bytes>, part: Bytes, rooted: bool)
    ensures var kept, more := Reduce(parts, rooted), Reduce(parts + [part], rooted);
            && (part == "" || part == "." ==> more == kept)
            && (Plain(part) ==> more == kept + [part])
            && (part == ".." && kept != [] && kept[|kept| - 1] != ".." ==> more == kept[..|kept| - 1])
            && (part == ".." && kept != [] && kept[|kept| - 1] == ".." ==> more == kept + [part])
            && (part == ".." && kept == [] ==> more == if rooted then [] else [part])
  {
    assert (parts + [part])[..|parts|] == parts;
  }

  lemma {:induction false} PlainPartsStay(parts: seq<Bytes>, rooted: bool)
    requires forall k :: 0 <= k < |parts| ==> Plain(parts[k])
    ensures Reduce(parts, rooted) == parts
  {
    if parts != [] {
      var before := parts[..|parts| - 1];
      PlainPartsStay(before, rooted);
      OneMorePart(before, parts[|parts| - 1], rooted);
      assert parts == before + [parts[|parts| - 1]];
    }
  }

  lemma {:induction false} SplitOfJoined(parts: seq<Bytes>)
    requires parts != [] && forall k :: 0 <= k < |parts| ==> '/' !in parts[k]
    ensures SplitSlash(JoinSlash(parts)) == parts
  {
    if |parts| == 1 {
      SplitOfPart(parts[0]);
    } else {
      SplitOfJoined(parts[1..]);
      SplitOfPart(parts[0]);
      SplitSlashAcross(parts[0], JoinSlash(parts[1..]));
    }
  }

  lemma {:induction false} SplitOfPart(part: Bytes)
    requires '/' !in part
    ensures SplitSlash(part) == [part]
  {
    if part != "" {
      SplitOfPart(part[1..]);
      assert [part[0]] + part[1..] == part;
    }
  }

  /** A path already normal is left as it is, from the root or not. */
  lemma NormalPathsStay(parts: seq<Bytes>)
    requires parts != [] && forall k :: 0 <= k < |parts| ==> '/' !in parts[k] && Plain(parts[k])
    ensures Normpath(JoinSlash(parts)) == JoinSlash(parts)
    ensures Normpath("/" + JoinSlash(parts)) == "/" + JoinSlash(parts)
  {
    JoinedStarts(parts);
    JoinedReduces(parts);
    NormpathIs(JoinSlash(parts), parts);
    NormpathIs("/" + JoinSlash(parts), parts);
    LeadingSlash(JoinSlash(parts));
  }

  lemma JoinedReduces(parts: seq<Bytes>)
    requires parts != [] && forall k :: 0 <= k < |parts| ==> '/' !in parts[k] && Plain(parts[k])
    ensures Reduce(SplitSlash(JoinSlash(parts)), false) == parts
    ensures Reduce(SplitSlash("/" + JoinSlash(parts)), true) == parts
  {
    SplitOfJoined(parts);
    RootedSplits(JoinSlash(parts));
    LeadingEmpty(parts, true);
    PlainPartsStay(parts, false);
    PlainPartsStay(parts, true);
  }

  lemma NormpathIs(p: Bytes, kept: seq<Bytes>)
    requires p != "" && Reduce(SplitSlash(p), Absolute(p)) == kept && Lead(p) + JoinSlash(kept) != ""
    ensures Normpath(p) == Lead(p) + JoinSlash(kept)
  {
  }

  lemma LeadingSlash(rest: Bytes)
    requires rest != "" && rest[0] != '/'
    ensures Lead(rest) == "" && Lead("/" + rest) == "/" && "" + rest == rest
  {
    assert ("/" + rest)[1] == rest[0];
  }

  lemma RootedSplits(joined: Bytes)
    ensures SplitSlash("/" + joined) == [""] + SplitSlash(joined)
  {
    assert ("/" + joined)[1..] == joined;
  }

  lemma JoinedStarts(parts: seq<Bytes>)
    requires parts != [] && parts[0] != "" && '/' !in parts[0]
    ensures JoinSlash(parts) != "" && JoinSlash(parts)[0] == parts[0][0] != '/'
  {
  }

  lemma {:induction false} LeadingEmpty(parts: seq<Bytes>, rooted: bool)
    ensures Reduce([""] + parts, rooted) == Reduce(parts, rooted)
  {
    var all := [""] + parts;
    if parts == [] {
      assert all == [""] && [""][..0] == [];
    } else {
      var before := parts[..|parts| - 1];
      LeadingEmpty(before, rooted);
      assert all[..|all| - 1] == [""] + before && all[|all| - 1] == parts[|parts| - 1];
    }
  }

  /** Exactly two leading slashes are kept, more are one; and a path of nothing is `.`. */
  lemma LeadingSlashes(rest: Bytes)
    requires rest == "" || rest[0] != '/'
    ensures Lead(rest) == "" && Lead("/" + rest) == "/" && Lead("//" + rest) == "//" && Lead("///" + rest) == "/"
    ensures Normpath("") == "." && Normpath("/") == "/"
  {
    assert SplitSlash("") == [""] && [""][..0] == [] && Reduce([""], false) == [];
    assert "/"[1..] == "" && SplitSlash("/") == ["", ""];
    assert ["", ""][..1] == [""] && Reduce([""], true) == [];
  }

  lemma {:induction false} BasenameAfterSlash(a: Bytes, b: Bytes)
    ensures Basename(a + "/" + b) == Basename(b)
  {
    var s := a + "/" + b;
    assert s[|a|] == '/';
    if a == "" {
      assert s[1..] == b;
    } else {
      assert s[1..] == a[1..] + "/" + b;
      BasenameAfterSlash(a[1..], b);
    }
  }

  lemma {:induction false} BasenameOfJoined(lead: Bytes, parts: seq<Bytes>)
    requires parts != [] && '/' !in parts[|parts| - 1]
    requires lead == "" || lead == "/" || lead == "//"
    ensures Basename(lead + JoinSlash(parts)) == parts[|parts| - 1]
    decreases |parts|, |lead|
  {
    var joined := JoinSlash(parts);
    if lead == "//" {
      assert lead + joined == "/" + "/" + joined;
      BasenameAfterSlash("/", joined);
      BasenameOfJoined("", parts);
      assert "" + joined == joined;
    } else if lead == "/" {
      assert lead + joined == "" + "/" + joined;
      BasenameAfterSlash("", joined);
      BasenameOfJoined("", parts);
      assert "" + joined == joined;
    } else if |parts| > 1 {
      assert lead + joined == parts[0] + "/" + JoinSlash(parts[1..]);
      BasenameAfterSlash(parts[0], JoinSlash(parts[1..]));
      BasenameOfJoined("", parts[1..]);
      assert "" + JoinSlash(parts[1..]) == JoinSlash(parts[1..]);
    }
  }

  lemma {:induction false} SplitSlashAcross(a: Bytes, b: Bytes)
    ensures SplitSlash(a + "/" + b) == SplitSlash(a) + SplitSlash(b)
  {
    var s := a + "/" + b;
    if a == "" {
      assert s[1..] == b;
    } else {
      assert s[1..] == a[1..] + "/" + b;
      SplitSlashAcross(a[1..], b);
    }
  }

  /** A trailing separator or `/.` names the same final component, so it cannot blind the basename filter. */
  lemma TrailingSeparatorKeepsTheName(p: Bytes, tail: Bytes)
    requires p != "" && (tail == "" || tail == ".")
    ensures Basename(Normpath(p + "/" + tail)) == Basename(Normpath(p))
  {
    var q := p + "/" + tail;
    SplitSlashAcross(p, tail);
    SplitSlashDot(tail);
    var parts := SplitSlash(p);
    assert (parts + [tail])[..|parts|] == parts;
    var kept := Reduce(parts, Absolute(p));
    assert q[0] == p[0];
    assert Reduce(SplitSlash(q), Absolute(q)) == kept;
    if kept != [] {
      BasenameOfJoined(Lead(p), kept);
      BasenameOfJoined(Lead(q), kept);
      assert Lead(p) + JoinSlash(kept) != "" by { Reduced(parts, Absolute(p)); JoinedIsNotEmpty(kept); }
      assert Lead(q) + JoinSlash(kept) != "" by { Reduced(parts, Absolute(p)); JoinedIsNotEmpty(kept); }
    } else {
      BasenameOfLead(Lead(p));
      BasenameOfLead(Lead(q));
      assert Lead(p) + "" == Lead(p) && Lead(q) + "" == Lead(q);
    }
  }

  lemma SplitSlashDot(tail: Bytes)
    requires tail == "" || tail == "."
    ensures SplitSlash(tail) == [tail]
  {
    if tail == "." {
      assert tail[1..] == "" && SplitSlash(tail[1..]) == [""];
      assert ['.'] + "" == tail;
    }
  }

  lemma BasenameOfLead(lead: Bytes)
    requires lead == "" || lead == "/" || lead == "//"
    ensures Basename(lead) == ""
  {
    if lead == "/" {
      assert lead[1..] == "";
    } else if lead == "//" {
      assert lead[1..] == "/" && lead[1..][1..] == "";
    }
  }

  lemma {:induction false} Reduced(parts: seq<Bytes>, rooted: bool)
    ensures forall k :: 0 <= k < |Reduce(parts, rooted)| ==> Reduce(parts, rooted)[k] != ""
  {
    if parts != [] {
      Reduced(parts[..|parts| - 1], rooted);
    }
  }

  lemma JoinedIsNotEmpty(parts: seq<Bytes>)
    requires parts != [] && parts[0] != ""
    ensures JoinSlash(parts) != ""
  {
  }

  // ----- one row of the listing -----

  /** ASCII whitespace, as `bytes.split` sees it. */
  predicate Blank(c: char) {
    9 <= c as int <= 13 || c == ' '
  }

  lemma BlankIsAscii(c: char)
    ensures Blank(c) <==> c == ' ' || c == '\t' || c == '\n' || c == '\r' || c as int == 11 || c as int == 12
  {
  }

  function SkipBlank(s: Bytes): (r: Bytes)
    ensures |r| <= |s| && (r != "" ==> !Blank(r[0]))
  {
    if s != "" && Blank(s[0]) then SkipBlank(s[1..]) else s
  }

  function SkipWord(s: Bytes): (r: Bytes)
    ensures |r| <= |s| && (s != "" && !Blank(s[0]) ==> |r| < |s|)
  {
    if s != "" && !Blank(s[0]) then SkipWord(s[1..]) else s
  }

  /** What `split(None, n)` leaves after its first `n` words; empty when the line has no more. */
  function AfterWords(s: Bytes, n: nat): Bytes
    decreases n
  {
    if n == 0 then SkipBlank(s) else AfterWords(SkipWord(SkipBlank(s)), n - 1)
  }

  /** `line.split(None, 7)[7]`, when there is one. */
  function BoundPath(line: Bytes): Option<Bytes> {
    if AfterWords(line, 7) == "" then None else Some(AfterWords(line, 7))
  }

  /** One column as the kernel pads and prints it. */
  datatype Cell = Cell(gap: Bytes, word: Bytes)

  predicate WellFormed(cells: seq<Cell>) {
    forall k :: 0 <= k < |cells| ==>
      && (forall i :: 0 <= i < |cells[k].gap| ==> Blank(cells[k].gap[i])) && (k > 0 ==> cells[k].gap != "")
      && (forall i :: 0 <= i < |cells[k].word| ==> !Blank(cells[k].word[i])) && cells[k].word != ""
  }

  function Row(cells: seq<Cell>, name: Bytes): Bytes {
    if cells == [] then " " + name else cells[0].gap + (cells[0].word + Row(cells[1..], name))
  }

  lemma {:induction false} SkipBlanks(gap: Bytes, rest: Bytes)
    requires forall i :: 0 <= i < |gap| ==> Blank(gap[i])
    requires rest != "" ==> !Blank(rest[0])
    ensures SkipBlank(gap + rest) == rest
  {
    if gap == "" {
      assert gap + rest == rest;
    } else {
      assert (gap + rest)[1..] == gap[1..] + rest;
      SkipBlanks(gap[1..], rest);
    }
  }

  lemma {:induction false} SkipOneWord(word: Bytes, rest: Bytes)
    requires forall i :: 0 <= i < |word| ==> !Blank(word[i])
    requires rest != "" ==> Blank(rest[0])
    ensures SkipWord(word + rest) == rest
  {
    if word == "" {
      assert word + rest == rest;
    } else {
      assert (word + rest)[1..] == word[1..] + rest;
      SkipOneWord(word[1..], rest);
    }
  }

  lemma {:induction false} RowNamesItsPath(cells: seq<Cell>, name: Bytes)
    requires WellFormed(cells) && name != "" && !Blank(name[0])
    ensures AfterWords(Row(cells, name), |cells|) == name
    decreases |cells|
  {
    if cells == [] {
      SkipBlanks(" ", name);
    } else {
      var c, rest := cells[0], Row(cells[1..], name);
      RowNamesItsPath(cells[1..], name);
      if |cells| > 1 {
        assert cells[1].gap[0] == rest[0];
      }
      SkipBlanks(c.gap, c.word + rest);
      SkipOneWord(c.word, rest);
    }
  }

  // ----- the decision -----

  datatype Answer = Yes | No | Unknown

  /** What the filesystem says now, to this reader. */
  datatype World = World(realpath: Bytes -> Bytes, lexists: Bytes -> bool)

  /** What is asked: the path, what it resolves to, and its final component. */
  datatype Question = Question(wanted: Bytes, resolved: Bytes, name: Bytes)

  function Ask(w: World, wanted: Bytes): Question {
    Question(wanted, w.realpath(wanted), Basename(Normpath(wanted)))
  }

  /** What one row settles, if anything. */
  function Settles(w: World, q: Question, path: Option<Bytes>): (answer: Option<Answer>)
    ensures answer.None? <==> path.Some? ==> RuledOut(w, q, path.value)
    ensures answer == Some(Yes) ==> path.Some? && Names(w, path.value, q)
    ensures answer != Some(No)
  {
    if path.None? then None
    else if path.value == q.wanted then Some(Yes)
    else if Basename(path.value) != q.name then None
    else if !Absolute(path.value) then Some(Unknown)
    else if w.realpath(path.value) == q.resolved then Some(Yes)
    else if !w.lexists(w.realpath(path.value)) then Some(Unknown)
    else None
  }

  function Settler(w: World, q: Question, path: Bytes -> Option<Bytes>): (settles: Bytes -> Option<Answer>)
    ensures forall line :: settles(line) == Settles(w, q, path(line))
  {
    line => Settles(w, q, path(line))
  }

  /** The search: the first line that settles it, "no" when none does. */
  function Search(settles: Bytes -> Option<Answer>, lines: seq<Bytes>): Answer {
    if lines == [] then No
    else
      match settles(lines[0])
      case Some(answer) => answer
      case None => Search(settles, lines[1..])
  }

  /** The decision, given how a line names its path; no listing is an `OSError` on reading it. */
  function Decide(w: World, q: Question, listing: Option<Bytes>, path: Bytes -> Option<Bytes>): Answer {
    if '\n' in q.wanted || '\n' in q.resolved then Unknown
    else if listing.None? then Unknown
    else if q.name == "" then Unknown
    else Search(Settler(w, q, path), SplitLines(listing.value))
  }

  /** `path_has_bound_socket`. */
  function PathHasBoundSocket(w: World, wanted: Bytes, listing: Option<Bytes>): Answer {
    Decide(w, Ask(w, wanted), listing, BoundPath)
  }

  /** The bound name rules its socket out: another final component, or it still names another file. */
  predicate RuledOut(w: World, q: Question, name: Bytes) {
    && name != q.wanted
    && (Basename(name) == q.name ==>
          name != "" && name[0] == '/' && w.realpath(name) != q.resolved && w.lexists(w.realpath(name)))
  }

  predicate Names(w: World, name: Bytes, q: Question) {
    name == q.wanted || w.realpath(name) == q.resolved
  }

  lemma {:induction false} SearchFindsTheFirst(settles: Bytes -> Option<Answer>, lines: seq<Bytes>)
    requires forall line :: settles(line) != Some(No)
    ensures Search(settles, lines) == No <==> forall k :: 0 <= k < |lines| ==> settles(lines[k]).None?
    ensures Search(settles, lines) == Yes ==> exists k :: 0 <= k < |lines| && settles(lines[k]) == Some(Yes)
  {
    if lines != [] {
      SearchFindsTheFirst(settles, lines[1..]);
      assert forall k :: 0 <= k < |lines[1..]| ==> lines[1..][k] == lines[k + 1];
      assert forall k :: 1 <= k < |lines| ==> lines[k] == lines[1..][k - 1];
    }
  }

  predicate LineRuledOut(w: World, q: Question, path: Option<Bytes>) {
    path.Some? ==> RuledOut(w, q, path.value)
  }

  predicate Representable(q: Question) {
    '\n' !in q.wanted && '\n' !in q.resolved && q.name != ""
  }

  predicate AllRuledOut(w: World, q: Question, lines: seq<Bytes>, path: Bytes -> Option<Bytes>) {
    forall k :: 0 <= k < |lines| ==> LineRuledOut(w, q, path(lines[k]))
  }

  /** "No" is said exactly when the listing was read, the question names a file it can show, and every row is ruled out. */
  lemma NoMeansEveryRowIsRuledOut(w: World, q: Question, listing: Option<Bytes>, path: Bytes -> Option<Bytes>)
    ensures Decide(w, q, listing, path) == No <==>
              listing.Some? && Representable(q) && AllRuledOut(w, q, SplitLines(listing.value), path)
  {
    if listing.Some? {
      SearchFindsTheFirst(Settler(w, q, path), SplitLines(listing.value));
    }
  }

  /** "Yes" is backed by a row whose name is, or resolves to, the file asked about. */
  lemma YesIsBackedByARow(w: World, q: Question, listing: Option<Bytes>, path: Bytes -> Option<Bytes>)
    requires Decide(w, q, listing, path) == Yes
    ensures listing.Some?
    ensures SomeRowNamesIt(w, q, SplitLines(listing.value), path)
  {
    SearchNamesIt(w, q, SplitLines(listing.value), path);
  }

  /** A row that settles it for "yes": the very string, or an absolute name of that final component that leads there. */
  predicate BoundThere(w: World, q: Question, path: Option<Bytes>) {
    path.Some? && (path.value == q.wanted
                   || (Basename(path.value) == q.name && path.value != "" && path.value[0] == '/' && w.realpath(path.value) == q.resolved))
  }

  predicate FirstBoundAt(w: World, q: Question, lines: seq<Bytes>, path: Bytes -> Option<Bytes>, k: nat) {
    k < |lines| && BoundThere(w, q, path(lines[k])) && forall j :: 0 <= j < k ==> LineRuledOut(w, q, path(lines[j]))
  }

  predicate SomeFirstBound(w: World, q: Question, lines: seq<Bytes>, path: Bytes -> Option<Bytes>) {
    exists k :: 0 <= k < |lines| && FirstBoundAt(w, q, lines, path, k)
  }

  /** "Yes" is said exactly when the question can be shown and such a row comes before any that leaves it open. */
  lemma YesExactlyWhen(w: World, q: Question, listing: Option<Bytes>, path: Bytes -> Option<Bytes>)
    ensures Decide(w, q, listing, path) == Yes <==>
              listing.Some? && Representable(q) && SomeFirstBound(w, q, SplitLines(listing.value), path)
  {
    if listing.Some? {
      FirstYes(w, q, SplitLines(listing.value), path);
    }
  }

  lemma {:induction false} FirstYes(w: World, q: Question, lines: seq<Bytes>, path: Bytes -> Option<Bytes>)
    ensures Search(Settler(w, q, path), lines) == Yes <==> SomeFirstBound(w, q, lines, path)
  {
    if lines != [] {
      var rest := lines[1..];
      FirstYes(w, q, rest, path);
      SettledRow(w, q, path(lines[0]));
      forall k: nat | FirstBoundAt(w, q, lines, path, k)
        ensures BoundThere(w, q, path(lines[0])) || LineRuledOut(w, q, path(lines[0]))
      {
      }
      if BoundThere(w, q, path(lines[0])) {
        assert FirstBoundAt(w, q, lines, path, 0);
      } else if LineRuledOut(w, q, path(lines[0])) {
        if k: nat :| FirstBoundAt(w, q, rest, path, k) {
          assert forall j :: 1 <= j < k + 1 ==> lines[j] == rest[j - 1];
          assert FirstBoundAt(w, q, lines, path, k + 1);
        }
        if k: nat :| FirstBoundAt(w, q, lines, path, k) {
          assert forall j :: 0 <= j < k - 1 ==> rest[j] == lines[j + 1];
          assert FirstBoundAt(w, q, rest, path, k - 1);
        }
      }
    }
  }

  /** The three ways a row can bear on the question. */
  lemma SettledRow(w: World, q: Question, path: Option<Bytes>)
    ensures Settles(w, q, path) == Some(Yes) <==> BoundThere(w, q, path)
    ensures Settles(w, q, path) == None <==> LineRuledOut(w, q, path)
    ensures !(BoundThere(w, q, path) && LineRuledOut(w, q, path))
  {
  }

  predicate SomeRowNamesIt(w: World, q: Question, lines: seq<Bytes>, path: Bytes -> Option<Bytes>) {
    exists k :: 0 <= k < |lines| && path(lines[k]).Some? && Names(w, path(lines[k]).value, q)
  }

  lemma SearchNamesIt(w: World, q: Question, lines: seq<Bytes>, path: Bytes -> Option<Bytes>)
    requires Search(Settler(w, q, path), lines) == Yes
    ensures SomeRowNamesIt(w, q, lines, path)
  {
    var settles := Settler(w, q, path);
    SearchFindsTheFirst(settles, lines);
    var k :| 0 <= k < |lines| && settles(lines[k]) == Some(Yes);
    assert Settles(w, q, path(lines[k])) == Some(Yes);
  }

  // ----- soundness -----

  /** A socket bound to a file: the string given to `bind` and where that file is now. The binder's working
      directory, which gave a relative name its meaning, appears nowhere: it may be any. */
  datatype Socket = Socket(name: Bytes, at: Bytes)

  /** A name the line-oriented listing carries whole. */
  predicate Listable(name: Bytes) {
    name != "" && !Blank(name[0]) && '\n' !in name
  }

  ghost predicate Shows(listing: Bytes, s: Socket) {
    exists before, cells, after :: ListedAt(listing, s, before, cells, after)
  }

  predicate ListedAt(listing: Bytes, s: Socket, before: Bytes, cells: seq<Cell>, after: Bytes) {
    && |cells| == 7 && WellFormed(cells) && (forall c :: c in cells ==> '\n' !in c.gap + c.word)
    && listing == before + "\n" + (Row(cells, s.name) + "\n" + after)
  }

  /** Directories above the socket may have moved, its own final component has not. */
  predicate KeepsItsName(s: Socket) {
    Basename(s.at) == Basename(s.name)
  }

  /** An absolute bound name leads to its socket still, or to nothing. */
  predicate StillNamesIt(w: World, s: Socket) {
    s.name != "" && s.name[0] == '/' && w.lexists(w.realpath(s.name)) ==> w.realpath(s.name) == s.at
  }

  /** The final component asked about is not a symlink. */
  predicate AsksTheFileItself(q: Question) {
    Basename(q.resolved) == q.name
  }

  lemma {:induction false} RowIsOneLine(cells: seq<Cell>, name: Bytes)
    requires '\n' !in name && forall c :: c in cells ==> '\n' !in c.gap + c.word
    ensures '\n' !in Row(cells, name)
    decreases |cells|
  {
    if cells != [] {
      RowIsOneLine(cells[1..], name);
      var c := cells[0];
      assert c in cells;
      forall ch | ch in c.gap || ch in c.word
        ensures ch in c.gap + c.word
      {
      }
    }
  }

  ghost predicate ReadAt(listing: Bytes, name: Bytes, path: Bytes -> Option<Bytes>) {
    exists k :: 0 <= k < |SplitLines(listing)| && path(SplitLines(listing)[k]) == Some(name)
  }

  /** Whatever other rows say, a listable socket's row is read as that socket's own name. */
  lemma ListedSocketIsRead(listing: Bytes, s: Socket)
    requires Shows(listing, s) && Listable(s.name)
    ensures ReadAt(listing, s.name, BoundPath)
  {
    var before, cells, after :| ListedAt(listing, s, before, cells, after);
    var row := Row(cells, s.name);
    RowIsOneLine(cells, s.name);
    SplitAcross(before, row + "\n" + after);
    SplitStep(row, after);
    RowNamesItsPath(cells, s.name);
    assert SplitLines(listing)[|SplitLines(before)|] == row;
  }

  /** Bound to the very file asked about, a socket is ruled out exactly when it was bound under another string and
      either the file itself was renamed since, or the bound name now leads to another file. */
  lemma RuledOutWrongly(w: World, q: Question, s: Socket)
    requires s.at == q.resolved && AsksTheFileItself(q)
    ensures RuledOut(w, q, s.name) <==> s.name != q.wanted && (!KeepsItsName(s) || !StillNamesIt(w, s))
  {
  }

  /** The sound "no": no listed socket is bound to that file, wherever its binder ran. */
  lemma NoIsSound(w: World, wanted: Bytes, listing: Bytes, s: Socket)
    requires PathHasBoundSocket(w, wanted, Some(listing)) == No
    requires Shows(listing, s) && Listable(s.name) && KeepsItsName(s) && StillNamesIt(w, s)
    requires AsksTheFileItself(Ask(w, wanted))
    ensures s.at != w.realpath(wanted)
  {
    ListedSocketIsRead(listing, s);
    NoIsSoundFor(w, Ask(w, wanted), listing, s, BoundPath);
  }

  lemma NoIsSoundFor(w: World, q: Question, listing: Bytes, s: Socket, path: Bytes -> Option<Bytes>)
    requires Decide(w, q, Some(listing), path) == No && ReadAt(listing, s.name, path)
    requires KeepsItsName(s) && StillNamesIt(w, s) && AsksTheFileItself(q)
    ensures s.at != q.resolved
  {
    NoMeansEveryRowIsRuledOut(w, q, Some(listing), path);
    if s.at == q.resolved {
      RuledOutWrongly(w, q, s);
    }
  }

  predicate OthersRuledOut(w: World, q: Question, listing: Bytes, name: Bytes, path: Bytes -> Option<Bytes>) {
    forall k :: 0 <= k < |SplitLines(listing)| ==>
      path(SplitLines(listing)[k]) == Some(name) || LineRuledOut(w, q, path(SplitLines(listing)[k]))
  }

  /** When "no" is wrong: with every other row ruled out, a listed socket bound to the file asked about is missed
      exactly when its own row is ruled out wrongly. */
  lemma MissedExactlyWhenRenamed(w: World, q: Question, listing: Bytes, s: Socket, path: Bytes -> Option<Bytes>)
    requires ReadAt(listing, s.name, path) && s.at == q.resolved && AsksTheFileItself(q) && Representable(q)
    requires OthersRuledOut(w, q, listing, s.name, path)
    ensures Decide(w, q, Some(listing), path) == No <==>
              s.name != q.wanted && (!KeepsItsName(s) || !StillNamesIt(w, s))
  {
    NoMeansEveryRowIsRuledOut(w, q, Some(listing), path);
    RuledOutWrongly(w, q, s);
  }

  /** A listing of one socket. */
  function Sole(cells: seq<Cell>, name: Bytes): Bytes {
    "" + "\n" + (Row(cells, name) + "\n" + "")
  }

  lemma SoleLines(row: Bytes)
    requires '\n' !in row
    ensures SplitLines("" + "\n" + (row + "\n" + "")) == ["", row, ""]
  {
    SplitAcross("", row + "\n" + "");
    SplitStep(row, "");
    assert SplitLines("") == [""];
  }

  /** Renaming a serving socket's own file, rather than a directory above it, is enough: the kernel lists it as
      `/a`, it is now `/b`, nothing else is listed, and the answer about `/b` is "no". */
  lemma RenamedSocketFileIsMissed(cells: seq<Cell>)
    requires |cells| == 7 && WellFormed(cells) && forall c :: c in cells ==> '\n' !in c.gap + c.word
    ensures var w := World(p => p, p => p == "/b");
            var s := Socket("/a", "/b");
            && Shows(Sole(cells, s.name), s) && Listable(s.name) && StillNamesIt(w, s) && s.at == w.realpath("/b")
            && PathHasBoundSocket(w, "/b", Some(Sole(cells, s.name))) == No
  {
    var w := World(p => p, p => p == "/b");
    var s := Socket("/a", "/b");
    assert ListedAt(Sole(cells, s.name), s, "", cells, "");
    OneLetterPath('a');
    OneLetterPath('b');
    assert "/" + ['a'] == "/a" && "/" + ['b'] == "/b";
    ListedSocketIsRead(Sole(cells, s.name), s);
    RowIsOneLine(cells, s.name);
    RowNamesItsPath(cells, s.name);
    NoRowInEmptyLine();
    SoleIsTheOnlyRow(w, Question("/b", "/b", "b"), cells, s.name, BoundPath);
    MissedExactlyWhenRenamed(w, Question("/b", "/b", "b"), Sole(cells, s.name), s, BoundPath);
  }

  lemma SoleIsTheOnlyRow(w: World, q: Question, cells: seq<Cell>, name: Bytes, path: Bytes -> Option<Bytes>)
    requires '\n' !in Row(cells, name) && path(Row(cells, name)) == Some(name) && path("").None?
    ensures OthersRuledOut(w, q, Sole(cells, name), name, path)
  {
    SoleLines(Row(cells, name));
  }

  lemma NoRowInEmptyLine()
    ensures BoundPath("").None?
  {
    assert AfterWords("", 7) == AfterWords("", 6) == AfterWords("", 5) == AfterWords("", 4);
    assert AfterWords("", 4) == AfterWords("", 3) == AfterWords("", 2) == AfterWords("", 1) == AfterWords("", 0);
  }

  lemma OneLetterPath(c: char)
    requires c != '/' && c != '.'
    ensures Basename("/" + [c]) == [c] && Basename(Normpath("/" + [c])) == [c]
  {
    var p := "/" + [c];
    assert p == "" + "/" + [c];
    BasenameAfterSlash("", [c]);
    SplitSlashAcross("", [c]);
    assert [c][1..] == "" && SplitSlash([c][1..]) == [""];
    assert [c] + "" == [c];
    assert SplitSlash([c]) == [[c]];
    var parts := SplitSlash(p);
    assert parts == ["", [c]];
    assert parts[..1] == [""] && [""][..0] == [];
    assert Reduce([""], true) == [];
    assert Reduce(parts, true) == [[c]];
    assert Normpath(p) == "/" + [c];
  }
}
