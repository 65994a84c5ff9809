/** The substitution sequences of the loader. The rows come from a database that is not part of
    this model; they are parameters. */
module Loader {
  import opened HttpTypes
  import opened Buffers
  import opened Replacing
  import opened InPlaceReplacing
  import opened Templates
  import opened IndexLists

  datatype PostRow = PostRow(title: string, description: string, createdAt: string)

  datatype ProjectRow = ProjectRow(
    title: string, description: string, githubUrl: string, imageUrl: string,
    websiteUrl: Option<string>, githubReadme: Option<string>)

  // What sqlite3_step gives: a row, no row, or an error.
  datatype Fetched<T> = Row(value: T) | Done | Failed

  // snprintf into a buffer of that capacity.
  function Formatted(s: string, capacity: nat): string {
    if |s| < capacity then s else if capacity == 0 then "" else s[..capacity - 1]
  }

  function Link(url: Option<string>, caption: string, capacity: nat): string {
    match url
    case None => ""
    case Some(u) => Formatted("<a href=\"" + u + "\">" + caption + "</a>", capacity)
  }

  function TitleFill(title: string): Binding { Binding("TITLE", title) }

  function PostFills(row: PostRow, post: string): seq<Binding> {
    [Binding("TITLE", row.title), Binding("DESCRIPTION", row.description), Binding("CREATED_AT", row.createdAt),
     Binding("POST", post)]
  }

  function ProjectFills(row: ProjectRow, capacity: nat): seq<Binding> {
    [Binding("TITLE", row.title), Binding("DESCRIPTION", row.description),
     Binding("GITHUB_URL", row.githubUrl), Binding("IMAGE_URL", row.imageUrl),
     Binding("WEBSITE_LINK", Link(row.websiteUrl, "Website", capacity)),
     Binding("README_LINK", Link(row.githubReadme, "Readme", capacity))]
  }

  // The lists of the front page. The second is printed into the buffer that the first one left;
  // a table that was not read to its end is not put in, and neither is anything after it.
  function IndexFills(projects: Rows, version: string, notes: Rows, capacity: nat): seq<Binding> {
    var lines := Lines("projects", projects.rows);
    if !projects.atEnd then []
    else
      [Binding("PROJECTS", Listed(lines, capacity, 0)), Binding("VERSION", version)] +
      if !notes.atEnd then []
      else [Binding("NOTES", Listed(Lines("posts", notes.rows), CapacityAfter(lines, capacity, 0), 0))]
  }

  function TotalLength(fills: seq<Binding>): nat {
    if fills == [] then 0 else |fills[0].value| + TotalLength(fills[1..])
  }

  predicate CStrings(fills: seq<Binding>) { forall i :: 0 <= i < |fills| ==> NoNul(fills[i].value) }

  // The page is in the buffer and what is still to be put in leaves its size an `int`.
  ghost predicate Loaded(b: Buffer, ts: seq<Token>, fills: seq<Binding>)
    reads b, b.data
  {
    && IsCString(b) && b.Text() == Flat(ts) && CStrings(fills)
    && b.capacity < 0x8000_0000 && 2 * (b.count + 10 * TotalLength(fills) + 1) <= 0x8000_0000
  }

  // Each placeholder is on the page once.
  ghost predicate AllOnce(ts: seq<Token>, fills: seq<Binding>) {
    forall i :: 0 <= i < |fills| ==> HoleCount(ts, fills[i].name) == 1
  }

  // ----- The first fill -----

  // Where the fill of a placeholder first searches behind the page, if it does.
  function Stray(ts: seq<Token>, fill: Binding): Option<nat> {
    StrayAt(Flat(ts), Needle(fill.name), fill.value, 0, MAX_OCCURRENCES)
  }

  // The memory behind the page is clean, and the fill fits without moving it.
  ghost predicate CleanRoom(b: Buffer, ts: seq<Token>, fill: Binding)
    reads b, b.data
  {
    && b.Valid() && b.data != null && Clean(b.data[..], b.count, |Needle(fill.name)|)
    && |InPlace(Flat(ts), Needle(fill.name), fill.value, 0, MAX_OCCURRENCES)| < b.capacity
  }

  // All searches of the fill start inside the page, or at least inside the allocation.
  ghost predicate InAllocation(ts: seq<Token>, fill: Binding, capacity: nat) {
    Stray(ts, fill).Some? ==> Stray(ts, fill).value < capacity
  }

  lemma NeedleIsCString(name: string)
    ensures IsName(name) ==> NoNul(Needle(name)) && Needle(name) != ""
  {
  }

  lemma FirstIsName(ts: seq<Token>, fills: seq<Binding>)
    requires Fits(ts, fills) && fills != []
    ensures Good(ts) && IsName(fills[0].name)
  {
  }

  lemma OthersStay(ts: seq<Token>, fills: seq<Binding>)
    requires Fits(ts, fills) && fills != [] && AllOnce(ts, fills[1..])
    ensures AllOnce(Fill(ts, fills[0].name, fills[0].value), fills[1..])
  {
    forall i | 0 <= i < |fills[1..]|
      ensures HoleCount(Fill(ts, fills[0].name, fills[0].value), fills[1..][i].name) == 1
    {
      FillKeepsOthers(ts, fills[0].name, fills[0].value, fills[1..][i].name);
    }
  }

  lemma InPlaceLength(s: string, needle: string, value: string)
    ensures |InPlace(s, needle, value, 0, MAX_OCCURRENCES)| <= |s| + 10 * |value|
  {
  }

  // The next str_replace of a sequence. What is left to do is the rest of it, on the page so far.
  method FillNext(b: Buffer, name: string, value: string, ghost ts: seq<Token>, ghost fills: seq<Binding>)
    returns (ok: bool, ghost ts': seq<Token>)
    requires fills != [] && fills[0] == Binding(name, value)
    requires Loaded(b, ts, fills) && Fits(ts, fills)
    modifies b, b.data
    ensures b.data == old(b.data) || fresh(b.data)
    ensures Loaded(b, ts', fills[1..]) && (|fills| > 1 ==> Fits(ts', fills[1..]))
    ensures AtOnce(ts', fills[1..]) == AtOnce(ts, fills)
    ensures AllOnce(ts, fills[1..]) ==> AllOnce(ts', fills[1..])
    ensures AllOnce(ts, fills) ==> ok && AllOnce(ts, fills[1..])
    ensures Stray(ts, fills[0]) == None ==> ok
    ensures old(CleanRoom(b, ts, fills[0])) ==> (ok <==> InAllocation(ts, fills[0], old(b.capacity)))
  {
    FirstIsName(ts, fills);
    NeedleIsCString(name);
    hide Find, InPlace, Flat, Fill, AtOnce, Fits, Needle, StrayAt, Quiet, Clean, HoleCount, NoNul, Good, IsName;
    OneFill(ts, fills);
    FillThenAtOnce(ts, fills);
    if AllOnce(ts, fills[1..]) {
      OthersStay(ts, fills);
    }
    if AllOnce(ts, fills) {
      OneHoleIsInside(ts, name, value);
    }
    InPlaceLength(Flat(ts), Needle(name), value);
    StrayIsBehind(Flat(ts), Needle(name), value, 0, MAX_OCCURRENCES);
    ok := StrReplace(b, Needle(name), value);
    ts' := Fill(ts, name, value);
    if Stray(ts, fills[0]).Some? && Clean(b.data[..], b.count, |Needle(name)|) {
      QuietIff(b.data[..], Needle(name), b.count, Stray(ts, fills[0]).value);
    }
  }

  lemma AllFilled(ts: seq<Token>, fills: seq<Binding>)
    requires fills == []
    ensures AtOnce(ts, fills) == ts
  {
    NothingAtOnce(ts);
  }

  // ----- The loaders -----

  // What a loader returns once the row was put in, or was not there.
  function Code<T>(row: Fetched<T>, resetOk: bool): int {
    if row.Done? then -2 else if !resetOk then -1 else 0
  }

  // load_post: the page, filled at once with the row and the post; or not at all. The outcome is
  // defined unless the fill of the title, or of another placeholder that is there twice, searches
  // behind the page and is not quiet.
  method LoadPost(b: Buffer, row: Fetched<PostRow>, post: string, resetOk: bool, ghost ts: seq<Token>)
    returns (ok: bool, r: int)
    requires row.Row? ==> Loaded(b, ts, PostFills(row.value, post)) && Fits(ts, PostFills(row.value, post))
    modifies b, b.data
    ensures ok ==> r == Code(row, resetOk)
    ensures ok ==> (r == -2 <==> row.Done?) && (r == 0 <==> !row.Done? && resetOk) && -2 <= r <= 0
    ensures ok && row.Row? ==> IsCString(b) && b.Text() == Flat(AtOnce(ts, PostFills(row.value, post)))
    ensures row.Row? && AllOnce(ts, PostFills(row.value, post)[1..]) ==>
              && (Stray(ts, TitleFill(row.value.title)) == None ==> ok)
              && (old(CleanRoom(b, ts, TitleFill(row.value.title))) ==>
                    (ok <==> InAllocation(ts, TitleFill(row.value.title), old(b.capacity))))
    ensures !row.Row? ==> ok && b.data == old(b.data) && b.capacity == old(b.capacity) && b.count == old(b.count)
    ensures !row.Row? && b.data != null ==> b.data[..] == old(if b.data != null then b.data[..] else [])
  {
    r := Code(row, resetOk);
    ok := true;
    if row.Row? {
      hide Flat, AtOnce, Fits, TotalLength, AllOnce, CleanRoom, InAllocation, Stray;
      ghost var fills, t := PostFills(row.value, post), ts;
      ok, t := FillNext(b, "TITLE", row.value.title, t, fills);
      if !ok {
        return;
      }
      ok := FillPostRest(b, row.value, post, t, fills[1..]);
    }
  }

  method FillPostRest(
    b: Buffer, row: PostRow, post: string, ghost ts: seq<Token>, ghost fills: seq<Binding>) returns (ok: bool)
    requires fills == PostFills(row, post)[1..] && Loaded(b, ts, fills) && Fits(ts, fills)
    modifies b, b.data
    ensures ok ==> IsCString(b) && b.Text() == Flat(AtOnce(ts, fills))
    ensures AllOnce(ts, fills) ==> ok
  {
    hide Flat, AtOnce, Fits, TotalLength, AllOnce, CleanRoom, InAllocation, Stray;
    ghost var t := ts;
    ok, t := FillNext(b, "DESCRIPTION", row.description, t, fills);
    if !ok {
      return;
    }
    ok, t := FillNext(b, "CREATED_AT", row.createdAt, t, fills[1..]);
    if !ok {
      return;
    }
    ok, t := FillNext(b, "POST", post, t, fills[1..][1..]);
    AllFilled(t, fills[1..][1..][1..]);
  }

  // load_project
  method LoadProject(b: Buffer, row: Fetched<ProjectRow>, tmpCapacity: nat, resetOk: bool, ghost ts: seq<Token>)
    returns (ok: bool, r: int)
    requires row.Row? ==>
               && Loaded(b, ts, ProjectFills(row.value, tmpCapacity))
               && Fits(ts, ProjectFills(row.value, tmpCapacity))
    modifies b, b.data
    ensures ok ==> r == Code(row, resetOk)
    ensures ok ==> (r == -2 <==> row.Done?) && (r == 0 <==> !row.Done? && resetOk) && -2 <= r <= 0
    ensures ok && row.Row? ==> IsCString(b) && b.Text() == Flat(AtOnce(ts, ProjectFills(row.value, tmpCapacity)))
    ensures row.Row? && AllOnce(ts, ProjectFills(row.value, tmpCapacity)[1..]) ==>
              && (Stray(ts, TitleFill(row.value.title)) == None ==> ok)
              && (old(CleanRoom(b, ts, TitleFill(row.value.title))) ==>
                    (ok <==> InAllocation(ts, TitleFill(row.value.title), old(b.capacity))))
  {
    r := Code(row, resetOk);
    ok := true;
    if row.Row? {
      hide Flat, AtOnce, Fits, TotalLength, Link, AllOnce, CleanRoom, InAllocation, Stray;
      ghost var fills, t := ProjectFills(row.value, tmpCapacity), ts;
      ok, t := FillNext(b, "TITLE", row.value.title, t, fills);
      if !ok {
        return;
      }
      ok, t := FillNext(b, "DESCRIPTION", row.value.description, t, fills[1..]);
      if !ok {
        return;
      }
      ok := FillUrls(b, row.value, tmpCapacity, t, fills[1..][1..]);
    }
  }

  // The addresses of a project; each of the last two may be missing.
  method FillUrls(
    b: Buffer, row: ProjectRow, tmpCapacity: nat, ghost ts: seq<Token>, ghost fills: seq<Binding>) returns (ok: bool)
    requires fills == ProjectFills(row, tmpCapacity)[1..][1..] && Loaded(b, ts, fills) && Fits(ts, fills)
    modifies b, b.data
    ensures ok ==> IsCString(b) && b.Text() == Flat(AtOnce(ts, fills))
    ensures AllOnce(ts, fills) ==> ok
  {
    hide Flat, AtOnce, Fits, TotalLength, Link, AllOnce, CleanRoom, InAllocation, Stray;
    ghost var t := ts;
    ok, t := FillNext(b, "GITHUB_URL", row.githubUrl, t, fills);
    if !ok {
      return;
    }
    ok, t := FillNext(b, "IMAGE_URL", row.imageUrl, t, fills[1..]);
    if !ok {
      return;
    }
    ok, t := FillNext(b, "WEBSITE_LINK", Link(row.websiteUrl, "Website", tmpCapacity), t, fills[1..][1..]);
    if !ok {
      return;
    }
    ok, t := FillNext(b, "README_LINK", Link(row.githubReadme, "Readme", tmpCapacity), t, fills[1..][1..][1..]);
    AllFilled(t, fills[1..][1..][1..][1..]);
  }

  // The rows read for a list, as C strings whose lines fit an `int` together.
  predicate Readable(kind: string, table: Rows) {
    AllCStrings(table.rows) && 2 * (|Concat(Lines(kind, table.rows))| + 256) <= 0x8000_0000
  }

  // The lines printed last, and the capacity they were printed into.
  function LastLines(projects: Rows, notes: Rows, capacity: nat): (seq<string>, nat) {
    var lines := Lines("projects", projects.rows);
    if projects.atEnd then (Lines("posts", notes.rows), CapacityAfter(lines, capacity, 0)) else (lines, capacity)
  }

  // load_index. `count` is the count that the list buffer is left with; handle_b then clears that
  // many bytes of it, which stays inside if and only if the last line printed fits.
  method LoadIndex(
    b: Buffer, tmp: Buffer, projects: Rows, version: string, notes: Rows, resetOk: bool, ghost ts: seq<Token>)
    returns (ok: bool, r: int, count: nat)
    requires tmp.Valid() && tmp.data != null && 0 < tmp.capacity < 0x8000_0000
    requires tmp != b && tmp.data != b.data && Readable("projects", projects) && Readable("posts", notes)
    requires Loaded(b, ts, IndexFills(projects, version, notes, tmp.capacity))
    requires Fits(ts, IndexFills(projects, version, notes, tmp.capacity))
    modifies b, b.data, tmp, tmp.data
    ensures ok ==> r == if resetOk then 0 else -1
    ensures ok ==> IsCString(b) && b.Text() == Flat(AtOnce(ts, old(IndexFills(projects, version, notes, tmp.capacity))))
    ensures AllOnce(ts, old(IndexFills(projects, version, notes, tmp.capacity))) ==> ok
    ensures ok ==>
              var (lines, capacity) := old(LastLines(projects, notes, tmp.capacity));
              count <= tmp.capacity <==> LastLineFits(lines, capacity, 0)
  {
    KindsAreCStrings();
    hide Flat, AtOnce, Fits, TotalLength, AllOnce, CleanRoom, InAllocation, Stray, Listed, CapacityAfter, AllCStrings;
    hide Concat, Code, LastLineFits, NoNul;
    ghost var fills, t := IndexFills(projects, version, notes, tmp.capacity), ts;
    r := if resetOk then 0 else -1;
    ok := true;
    tmp.count := 0;
    CountIsWithinIff(Lines("projects", projects.rows), tmp.capacity, 0);
    var list;
    list, count := AssembleList(tmp, "projects", projects.rows);
    if !projects.atEnd {
      AllFilled(t, fills);
      return;
    }
    ok, t := FillNext(b, "PROJECTS", list, t, fills);
    if !ok {
      return;
    }
    ok, t := FillNext(b, "VERSION", version, t, fills[1..]);
    if !ok {
      return;
    }
    CountIsWithinIff(Lines("posts", notes.rows), tmp.capacity, 0);
    list, count := AssembleList(tmp, "posts", notes.rows);
    if notes.atEnd {
      ok, t := FillNext(b, "NOTES", list, t, fills[1..][1..]);
      AllFilled(t, fills[1..][1..][1..]);
    } else {
      AllFilled(t, fills[1..][1..]);
    }
  }

  lemma KindsAreCStrings()
    ensures NoNul("projects") && NoNul("posts")
  {
  }

  // ----- A page in a zeroed buffer -----

  // read_static_file, of a file that is there: the page is in the buffer, and in one that was zeroed
  // and did not have to grow the memory behind it is clean.
  method ReadStaticFile(b: Buffer, file: string)
    requires b.Valid() && b.data != null && b.capacity < 0x8000_0000
    requires file != "" && NoNul(file) && 2 * (|file| + 1) <= 0x8000_0000
    modifies b, b.data
    ensures IsCString(b) && b.Text() == file && (b.data == old(b.data) || fresh(b.data))
    ensures b.capacity == Grown(old(b.capacity), |file| + 1)
    ensures (forall i :: 0 <= i < old(b.capacity) ==> old(b.data[i]) == '\0') && |file| < old(b.capacity) ==>
              forall m: nat :: m > 0 ==> Clean(b.data[..], b.count, m)
  {
    GrownReaches(b.capacity, |file| + 1);
    hide Grown, AsInt32, NoNul, Clean;
    ghost var capacity, before := b.capacity, b.data[..];
    var grown := b.EnsureCapacity(|file| + 1, true);
    assert b.data[..capacity] == before;
    PutFile(b.data, file);
    b.count := |file|;
    assert b.data[..|file|] == file;
    if (forall i :: 0 <= i < capacity ==> before[i] == '\0') && |file| < capacity {
      GrownEnough(capacity, |file| + 1);
      forall m: nat | m > 0 ensures Clean(b.data[..], b.count, m) {
        ZeroedIsClean(b.data[..], b.count, m);
      }
    }
  }

  lemma GrownEnough(c: nat, request: nat)
    requires request <= c
    ensures Grown(c, request) == c
  {
  }

  method PutFile(data: array<char>, file: string)
    requires |file| < data.Length
    modifies data
    ensures data[..|file|] == file && data[|file|] == '\0'
    ensures forall i :: |file| < i < data.Length ==> data[i] == old(data[i])
  {
    forall i | 0 <= i < |file| {
      data[i] := file[i];
    }
    data[|file|] := '\0';
  }
}
