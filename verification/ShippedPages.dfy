/** The pages that the server ships, as texts around placeholders, and what the loaders make of
    them. */
module ShippedPages {
  import opened HttpTypes
  import opened Replacing
  import opened Templates
  import opened Loader
  import opened IndexLists

  // A page with these texts around these placeholders.
  function Page(texts: seq<string>, names: seq<string>): seq<Token>
    requires |texts| == |names| + 1
    decreases |names|
  {
    if names == [] then [Lit(texts[0])]
    else [Lit(texts[0]), Hole(names[0])] + Page(texts[1..], names[1..])
  }

  // Texts without '%', each but the first and last with a tag or a line end in it.
  ghost predicate Separated(texts: seq<string>) {
    && (forall i :: 0 <= i < |texts| ==> HasNoPercent(texts[i]))
    && (forall i :: 1 <= i < |texts| - 1 ==> '<' in texts[i] || '\n' in texts[i])
  }

  function Times(names: seq<string>, name: string): nat {
    if names == [] then 0 else (if names[0] == name then 1 else 0) + Times(names[1..], name)
  }

  ghost predicate AllNames(names: seq<string>) { forall i :: 0 <= i < |names| ==> IsName(names[i]) }

  lemma {:induction false} PageIsGood(texts: seq<string>, names: seq<string>, name: string)
    requires |texts| == |names| + 1 && Separated(texts) && AllNames(names)
    ensures Good(Page(texts, names)) && HoleCount(Page(texts, names), name) == Times(names, name)
    ensures names == [] <==> !HasHole(Page(texts, names))
    ensures |names| > 0 ==> Lead(Page(texts, names)) == texts[0]
    decreases |names|
  {
    if names == [] {
      assert Page(texts, names)[1..] == [];
    } else {
      PageIsGood(texts[1..], names[1..], name);
      var page, rest := Page(texts, names), Page(texts[1..], names[1..]);
      assert page[1..] == [Hole(names[0])] + rest && page[1..][1..] == rest;
      assert texts[0] + "" == texts[0];
      if |names| > 1 {
        var i :| 0 <= i < |texts[1]| && (texts[1][i] == '<' || texts[1][i] == '\n');
        assert !NameChar(Lead(rest)[i]);
      }
      assert Good(page[1..]);
    }
  }

  // ----- Their placeholders -----

  // static/post.html, static/project.html and static/index.html, in the order of the page.
  const POST_NAMES := ["TITLE", "TITLE", "DESCRIPTION", "CREATED_AT", "POST"]
  const PROJECT_NAMES :=
    ["TITLE", "TITLE", "DESCRIPTION", "GITHUB_URL", "WEBSITE_LINK", "README_LINK", "IMAGE_URL"]
  const INDEX_NAMES := ["PROJECTS", "NOTES", "VERSION"]

  lemma PostNames()
    ensures AllNames(POST_NAMES)
    ensures Times(POST_NAMES, "TITLE") == 2 && Times(POST_NAMES, "DESCRIPTION") == 1
    ensures Times(POST_NAMES, "CREATED_AT") == 1 && Times(POST_NAMES, "POST") == 1
  {
    assert POST_NAMES[1..] == ["TITLE", "DESCRIPTION", "CREATED_AT", "POST"];
    assert POST_NAMES[1..][1..] == ["DESCRIPTION", "CREATED_AT", "POST"];
    assert POST_NAMES[1..][1..][1..] == ["CREATED_AT", "POST"];
    assert POST_NAMES[1..][1..][1..][1..] == ["POST"];
    assert POST_NAMES[1..][1..][1..][1..][1..] == [];
  }

  lemma ProjectNamesAre()
    ensures AllNames(PROJECT_NAMES)
  {
    assert IsName("TITLE") && IsName("DESCRIPTION") && IsName("GITHUB_URL");
    assert IsName("WEBSITE_LINK") && IsName("README_LINK") && IsName("IMAGE_URL");
    hide IsName;
  }

  lemma ProjectTimes(name: string)
    ensures Times(PROJECT_NAMES, name) ==
            if name == "TITLE" then 2
            else if name in {"DESCRIPTION", "GITHUB_URL", "WEBSITE_LINK", "README_LINK", "IMAGE_URL"} then 1 else 0
  {
    var n := PROJECT_NAMES;
    assert n[1..] == ["TITLE", "DESCRIPTION", "GITHUB_URL", "WEBSITE_LINK", "README_LINK", "IMAGE_URL"];
    assert n[1..][1..] == ["DESCRIPTION", "GITHUB_URL", "WEBSITE_LINK", "README_LINK", "IMAGE_URL"];
    LastFive(n[1..][1..], name);
    hide Times;
    TwoMore(n, name);
  }

  lemma TwoMore(n: seq<string>, name: string)
    requires |n| >= 2
    ensures Times(n, name) ==
            (if n[0] == name then 1 else 0) + (if n[1] == name then 1 else 0) + Times(n[1..][1..], name)
  {
    assert n[1..][0] == n[1];
  }

  lemma LastFive(n: seq<string>, name: string)
    requires n == ["DESCRIPTION", "GITHUB_URL", "WEBSITE_LINK", "README_LINK", "IMAGE_URL"]
    ensures Times(n, name) ==
            if name in {"DESCRIPTION", "GITHUB_URL", "WEBSITE_LINK", "README_LINK", "IMAGE_URL"} then 1 else 0
  {
    var m := n[1..][1..];
    TwoMore(n, name);
    TwoMore(m, name);
    assert m == ["WEBSITE_LINK", "README_LINK", "IMAGE_URL"] && m[1..][1..] == ["IMAGE_URL"];
    assert Times(["IMAGE_URL"], name) == if "IMAGE_URL" == name then 1 else 0 by {
      assert ["IMAGE_URL"][1..] == [];
    }
    hide Times;
  }

  lemma IndexNames()
    ensures AllNames(INDEX_NAMES)
    ensures Times(INDEX_NAMES, "PROJECTS") == Times(INDEX_NAMES, "VERSION") == Times(INDEX_NAMES, "NOTES") == 1
  {
    assert INDEX_NAMES[1..] == ["NOTES", "VERSION"];
    assert INDEX_NAMES[1..][1..] == ["VERSION"];
    assert INDEX_NAMES[1..][1..][1..] == [];
  }

  // ----- Every page can be filled with every row that has no '%' -----

  lemma PostPageFits(texts: seq<string>, row: PostRow, post: string)
    requires |texts| == 6 && Separated(texts)
    requires HasNoPercent(row.title) && HasNoPercent(row.description) && HasNoPercent(row.createdAt)
    ensures Fits(Page(texts, POST_NAMES), PostFills(row, post))
    ensures AllOnce(Page(texts, POST_NAMES), PostFills(row, post)[1..])
  {
    hide Page, Good, HoleCount, Separated, HasNoPercent, Times, AllNames, IsName;
    PostNames();
    var fills := PostFills(row, post);
    forall i | 0 <= i < |fills|
      ensures HoleCount(Page(texts, POST_NAMES), fills[i].name) == (if i == 0 then 2 else 1) && IsName(fills[i].name)
    {
      PageIsGood(texts, POST_NAMES, fills[i].name);
      NamedOnPage(POST_NAMES, if i == 0 then 0 else i + 1);
    }
    PageIsGood(texts, POST_NAMES, "");
  }

  lemma NamedOnPage(names: seq<string>, i: nat)
    requires AllNames(names) && i < |names|
    ensures IsName(names[i])
  {
  }

  lemma ProjectPageFits(texts: seq<string>, row: ProjectRow, capacity: nat)
    requires |texts| == 8 && Separated(texts)
    requires HasNoPercent(row.title) && HasNoPercent(row.description) && HasNoPercent(row.githubUrl)
    requires HasNoPercent(row.imageUrl) && HasNoPercent(Link(row.websiteUrl, "Website", capacity))
    ensures Fits(Page(texts, PROJECT_NAMES), ProjectFills(row, capacity))
    ensures AllOnce(Page(texts, PROJECT_NAMES), ProjectFills(row, capacity)[1..])
  {
    hide Page, Good, HoleCount, Separated, HasNoPercent, Times, AllNames, IsName, Link;
    ProjectNamesAre();
    var fills := ProjectFills(row, capacity);
    var places := [0, 2, 3, 6, 4, 5];
    forall i | 0 <= i < |fills|
      ensures HoleCount(Page(texts, PROJECT_NAMES), fills[i].name) == (if i == 0 then 2 else 1) && IsName(fills[i].name)
    {
      PageIsGood(texts, PROJECT_NAMES, fills[i].name);
      ProjectTimes(fills[i].name);
      NamedOnPage(PROJECT_NAMES, places[i]);
    }
    PageIsGood(texts, PROJECT_NAMES, "");
  }

  // On the front page every placeholder is there once, so that no search leaves the page.
  lemma IndexPageFits(texts: seq<string>, projects: Rows, version: string, notes: Rows, capacity: nat)
    requires |texts| == 4 && Separated(texts)
    requires var fills := IndexFills(projects, version, notes, capacity);
             forall i :: 0 <= i < |fills| - 1 ==> HasNoPercent(fills[i].value)
    ensures Fits(Page(texts, INDEX_NAMES), IndexFills(projects, version, notes, capacity))
    ensures AllOnce(Page(texts, INDEX_NAMES), IndexFills(projects, version, notes, capacity))
  {
    hide Page, Good, HoleCount, Separated, HasNoPercent, Times, AllNames, IsName, Listed, Lines, CapacityAfter;
    IndexNames();
    var fills := IndexFills(projects, version, notes, capacity);
    var places := [0, 2, 1];
    forall i | 0 <= i < |fills|
      ensures HoleCount(Page(texts, INDEX_NAMES), fills[i].name) == 1 && IsName(fills[i].name)
    {
      PageIsGood(texts, INDEX_NAMES, fills[i].name);
      NamedOnPage(INDEX_NAMES, places[i]);
    }
    PageIsGood(texts, INDEX_NAMES, "");
  }

  // ----- What the filled pages are -----

  // Texts with values between them.
  function Woven(texts: seq<string>, values: seq<string>): string
    requires |texts| == |values| + 1
    decreases |values|
  {
    if values == [] then texts[0] else texts[0] + values[0] + Woven(texts[1..], values[1..])
  }

  // What is at a placeholder afterwards.
  function Filled(fills: seq<Binding>, name: string): string {
    match Lookup(fills, name) case None => Needle(name) case Some(value) => value
  }

  lemma {:induction false} PageIsWoven(texts: seq<string>, names: seq<string>, fills: seq<Binding>, values: seq<string>)
    requires |texts| == |names| + 1 && |values| == |names|
    requires forall i :: 0 <= i < |names| ==> values[i] == Filled(fills, names[i])
    ensures Flat(AtOnce(Page(texts, names), fills)) == Woven(texts, values)
    decreases |names|
  {
    hide Lookup, Needle;
    var page := Page(texts, names);
    if names == [] {
      FlatAtOnce(page, fills);
      assert texts[0] + "" == texts[0];
    } else {
      var rest := Page(texts[1..], names[1..]);
      PageIsWoven(texts[1..], names[1..], fills, values[1..]);
      assert page[1..] == [Hole(names[0])] + rest && page[1..][1..] == rest;
      FlatAtOnce(page, fills);
      FlatAtOnce(page[1..], fills);
      assert texts[0] + (values[0] + Woven(texts[1..], values[1..])) ==
             texts[0] + values[0] + Woven(texts[1..], values[1..]);
    }
  }

  lemma FlatAtOnce(ts: seq<Token>, fills: seq<Binding>)
    requires ts != []
    ensures Flat(AtOnce(ts, fills)) ==
            (if ts[0].Hole? then Filled(fills, ts[0].name) else ts[0].text) + Flat(AtOnce(ts[1..], fills))
  {
  }

  lemma AllFilledIn(fills: seq<Binding>)
    requires DistinctNames(fills)
    ensures forall i :: 0 <= i < |fills| ==> Filled(fills, fills[i].name) == fills[i].value
  {
    forall i | 0 <= i < |fills| ensures Filled(fills, fills[i].name) == fills[i].value {
      LookupFinds(fills, i);
    }
  }

  // A post: the title in both places, the description, the date and the text, in the order of the page.
  lemma PostPageReads(texts: seq<string>, row: PostRow, post: string)
    requires |texts| == 6
    ensures Flat(AtOnce(Page(texts, POST_NAMES), PostFills(row, post))) ==
            Woven(texts, [row.title, row.title, row.description, row.createdAt, post])
  {
    var fills := PostFills(row, post);
    hide Page, Flat, AtOnce, Woven, Filled;
    AllFilledIn(fills);
    assert fills[0].name == "TITLE" && fills[1].name == "DESCRIPTION";
    assert fills[2].name == "CREATED_AT" && fills[3].name == "POST";
    PageIsWoven(texts, POST_NAMES, fills, [row.title, row.title, row.description, row.createdAt, post]);
  }

  // What a project's page has for an address that may be missing.
  ghost predicate LinksTo(link: string, url: Option<string>, caption: string) {
    if url == None then link == "" else link == "<a href=\"" + url.value + "\">" + caption + "</a>"
  }

  // A project: the title in both places, the description, its repository, the two links, which are whole
  // when they fit the buffer they are printed into, and the picture.
  lemma ProjectPageReads(texts: seq<string>, row: ProjectRow, capacity: nat) returns (website: string, readme: string)
    requires |texts| == 8
    ensures Flat(AtOnce(Page(texts, PROJECT_NAMES), ProjectFills(row, capacity))) ==
            Woven(texts, [row.title, row.title, row.description, row.githubUrl, website, readme, row.imageUrl])
    ensures row.websiteUrl == None || |row.websiteUrl.value| + 22 < capacity ==>
              LinksTo(website, row.websiteUrl, "Website")
    ensures row.githubReadme == None || |row.githubReadme.value| + 21 < capacity ==>
              LinksTo(readme, row.githubReadme, "Readme")
  {
    website, readme := Link(row.websiteUrl, "Website", capacity), Link(row.githubReadme, "Readme", capacity);
    var fills := ProjectFills(row, capacity);
    hide Page, Flat, AtOnce, Woven, Filled;
    ProjectNamesDiffer(row, capacity);
    AllFilledIn(fills);
    assert fills[0].name == "TITLE" && fills[1].name == "DESCRIPTION" && fills[2].name == "GITHUB_URL";
    assert fills[3].name == "IMAGE_URL" && fills[4].name == "WEBSITE_LINK" && fills[5].name == "README_LINK";
    PageIsWoven(texts, PROJECT_NAMES, fills,
        [row.title, row.title, row.description, row.githubUrl, website, readme, row.imageUrl]);
  }

  lemma ProjectNamesDiffer(row: ProjectRow, capacity: nat)
    ensures DistinctNames(ProjectFills(row, capacity))
  {
    hide Link;
    assert "DESCRIPTION"[0] != "README_LINK"[0];
  }

  // The front page: projects, notes and version; a list that could not be read to its end leaves its
  // placeholder, and those after it, on the page.
  lemma IndexPageReads(texts: seq<string>, projects: Rows, version: string, notes: Rows, capacity: nat)
    returns (list: string, listed: string)
    requires |texts| == 4
    ensures Flat(AtOnce(Page(texts, INDEX_NAMES), IndexFills(projects, version, notes, capacity))) ==
            Woven(texts,
                  if !projects.atEnd then ["%PROJECTS%", "%NOTES%", "%VERSION%"]
                  else [list, if notes.atEnd then listed else "%NOTES%", version])
    ensures list == Listed(Lines("projects", projects.rows), capacity, 0)
    ensures var left := CapacityAfter(Lines("projects", projects.rows), capacity, 0);
            listed == Listed(Lines("posts", notes.rows), left, 0)
  {
    list := Listed(Lines("projects", projects.rows), capacity, 0);
    listed := Listed(Lines("posts", notes.rows), CapacityAfter(Lines("projects", projects.rows), capacity, 0), 0);
    hide Lines, Listed, CapacityAfter, Page, Flat, AtOnce, Woven, Filled, IndexFills, Needle;
    var fills := IndexFills(projects, version, notes, capacity);
    IndexValues(projects, version, notes, capacity);
    var values := seq(3, i requires 0 <= i < 3 => Filled(fills, INDEX_NAMES[i]));
    PageIsWoven(texts, INDEX_NAMES, fills, values);
    assert values == if !projects.atEnd then ["%PROJECTS%", "%NOTES%", "%VERSION%"]
                     else [list, if notes.atEnd then listed else "%NOTES%", version];
  }

  lemma IndexValues(projects: Rows, version: string, notes: Rows, capacity: nat)
    ensures var (lines, more) := (Lines("projects", projects.rows), Lines("posts", notes.rows));
            var fills := IndexFills(projects, version, notes, capacity);
            && Filled(fills, INDEX_NAMES[0]) ==
               (if projects.atEnd then Listed(lines, capacity, 0) else "%PROJECTS%")
            && Filled(fills, INDEX_NAMES[1]) ==
               (if projects.atEnd && notes.atEnd then Listed(more, CapacityAfter(lines, capacity, 0), 0) else "%NOTES%")
            && Filled(fills, INDEX_NAMES[2]) == if projects.atEnd then version else "%VERSION%"
  {
    hide Lines, Listed, CapacityAfter;
    Needles();
    var fills := IndexFills(projects, version, notes, capacity);
    IndexNamesDiffer(fills);
    hide Needle;
    if projects.atEnd {
      LookupFinds(fills, 0);
      LookupFinds(fills, 1);
      if notes.atEnd {
        LookupFinds(fills, 2);
      }
    }
    hide Lookup;
    if !projects.atEnd {
      LookupMisses(fills, INDEX_NAMES[0]);
      LookupMisses(fills, INDEX_NAMES[2]);
    }
    if !projects.atEnd || !notes.atEnd {
      LookupMisses(fills, INDEX_NAMES[1]);
    }
  }

  lemma IndexNamesDiffer(fills: seq<Binding>)
    requires |fills| <= 3
    requires forall i :: 0 <= i < |fills| ==> fills[i].name == ["PROJECTS", "VERSION", "NOTES"][i]
    ensures DistinctNames(fills) && INDEX_NAMES[0] != INDEX_NAMES[1] && INDEX_NAMES[1] != INDEX_NAMES[2]
  {
  }

  lemma Needles()
    ensures Needle("PROJECTS") == "%PROJECTS%" && Needle("NOTES") == "%NOTES%" && Needle("VERSION") == "%VERSION%"
  {
  }

  // ----- Where the fill of the title searches -----

  lemma TitleTwice(texts: seq<string>, names: seq<string>, title: string)
    requires |names| >= 2 && |texts| == |names| + 1 && Separated(texts) && AllNames(names)
    requires names[0] == names[1] == "TITLE" && Times(names, "TITLE") == 2
    ensures var h1, h2, size := |texts[0]|, |texts[0]| + 7 + |texts[1]|, |Flat(Page(texts, names))|;
            Stray(Page(texts, names), TitleFill(title)) ==
            if h1 + h2 + 7 + |title| <= size then None else Some(h1 + h2 - 7 + 3 * |title|)
  {
    hide Page, Good, HoleCount, Separated, Times, AllNames, IsName, Flat, Stray;
    var rest := TitlesFirst(texts, names);
    NameTwice(Page(texts, names), texts[0], texts[1], TitleFill(title), rest);
  }

  lemma NameTwice(page: seq<Token>, text1: string, text2: string, fill: Binding, rest: seq<Token>)
    requires Good(page) && IsName(fill.name) && HoleCount(rest, fill.name) == 0
    requires page == [Lit(text1), Hole(fill.name)] + ([Lit(text2), Hole(fill.name)] + rest)
    ensures var m := |fill.name| + 2;
            var h1, h2 := |text1|, |text1| + m + |text2|;
            Stray(page, fill) ==
            if h1 + h2 + m + |fill.value| <= |Flat(page)| then None else Some(h1 + h2 - m + 3 * |fill.value|)
  {
    TwoHoles(page, text1, text2, fill.name, rest, fill.value);
    hide Good, HoleCount, Flat, StrayAt;
  }

  lemma TitlesFirst(texts: seq<string>, names: seq<string>) returns (rest: seq<Token>)
    requires |names| >= 2 && |texts| == |names| + 1 && Separated(texts) && AllNames(names)
    requires names[0] == names[1] == "TITLE" && Times(names, "TITLE") == 2
    ensures Page(texts, names) == [Lit(texts[0]), Hole("TITLE")] + ([Lit(texts[1]), Hole("TITLE")] + rest)
    ensures Good(Page(texts, names)) && HoleCount(rest, "TITLE") == 0 && IsName("TITLE")
  {
    PageIsGood(texts, names, "TITLE");
    rest := Page(texts[1..][1..], names[1..][1..]);
    TwoMore(names, "TITLE");
    PageIsGood(texts[1..][1..], names[1..][1..], "TITLE");
    assert IsName(names[0]);
    hide Good, HoleCount, Separated, Times, IsName;
    assert texts[1..][0] == texts[1] && names[1..][0] == names[1];
  }

  // static/post.html has 345 characters, and the title at 155 and 244: the third search starts
  // behind the page for every title.
  lemma PostPageAlwaysStrays(texts: seq<string>, title: string)
    requires |texts| == 6 && Separated(texts) && |texts[0]| == 155 && |texts[1]| == 82
    requires |Flat(Page(texts, POST_NAMES))| == 345
    ensures Stray(Page(texts, POST_NAMES), TitleFill(title)) == Some(392 + 3 * |title|)
    ensures forall capacity: nat ::
              InAllocation(Page(texts, POST_NAMES), TitleFill(title), capacity) <==> 392 + 3 * |title| < capacity
  {
    PostNames();
    hide Page, Separated, Times, AllNames, Flat, StrayAt;
    TitleTwice(texts, POST_NAMES, title);
  }

  // static/project.html has 563, and the title at 155 and 287: it starts inside the page for titles
  // of up to 114 characters.
  lemma ProjectPageStraysIff(texts: seq<string>, title: string)
    requires |texts| == 8 && Separated(texts) && |texts[0]| == 155 && |texts[1]| == 125
    requires |Flat(Page(texts, PROJECT_NAMES))| == 563
    ensures Stray(Page(texts, PROJECT_NAMES), TitleFill(title)) ==
            if |title| <= 114 then None else Some(435 + 3 * |title|)
    ensures forall capacity: nat ::
              InAllocation(Page(texts, PROJECT_NAMES), TitleFill(title), capacity) <==>
              |title| <= 114 || 435 + 3 * |title| < capacity
  {
    ProjectNamesAre();
    ProjectTimes("TITLE");
    hide Page, Separated, Times, AllNames, Flat, StrayAt;
    TitleTwice(texts, PROJECT_NAMES, title);
  }
}
