/** The lists of the front page, printed item by item into a growing buffer. */
module IndexLists {
  import opened HttpTypes
  import opened Buffers
  import opened InPlaceReplacing
  import opened Messages

  datatype IndexRow = IndexRow(id: string, title: string)

  // What was read of a table, and whether it was read to its end.
  datatype Rows = Rows(rows: seq<IndexRow>, atEnd: bool)

  // One line of a list; `kind` is where its link leads.
  function ListItem(kind: string, row: IndexRow): string {
    "<li id=\"" + row.id + "\"><a href=\"/" + kind + "/" + row.id + "\">" + row.title + "</a></li>"
  }

  function Lines(kind: string, rows: seq<IndexRow>): (items: seq<string>)
    ensures |items| == |rows| && forall i :: 0 <= i < |rows| ==> items[i] == ListItem(kind, rows[i])
  {
    if rows == [] then [] else [ListItem(kind, rows[0])] + Lines(kind, rows[1..])
  }

  function Concat(items: seq<string>): string { if items == [] then "" else items[0] + Concat(items[1..]) }

  // The room that an item finds when `used` characters are taken.
  function Room(capacity: nat, used: nat): (r: nat)
    ensures r >= 256
  {
    Grown(capacity, used + 256) - used
  }

  // What is printed of an item.
  function Printed(item: string, room: nat): (r: string)
    requires room > 0
    ensures |r| < room && |r| <= |item|
  {
    if |item| < room then item else item[..room - 1]
  }

  // The list as str_replace reads it. Each item is printed into at least 256 bytes, and one that
  // does not fit is cut; the next one goes where the whole of it would have ended, behind the
  // terminator.
  function Listed(items: seq<string>, capacity: nat, used: nat): string {
    if items == [] then ""
    else
      Printed(items[0], Room(capacity, used)) +
      if |items[0]| < Room(capacity, used)
      then Listed(items[1..], Grown(capacity, used + 256), used + |items[0]|)
      else ""
  }

  function CapacityAfter(items: seq<string>, capacity: nat, used: nat): nat {
    if items == [] then capacity
    else CapacityAfter(items[1..], Grown(capacity, used + 256), used + |items[0]|)
  }

  predicate AllFit(items: seq<string>, capacity: nat, used: nat) {
    items != [] ==>
      && |items[0]| < Room(capacity, used)
      && AllFit(items[1..], Grown(capacity, used + 256), used + |items[0]|)
  }

  // The list is whole if and only if every item fits the room it finds.
  lemma {:induction false} ListIsWholeIff(items: seq<string>, capacity: nat, used: nat)
    ensures Listed(items, capacity, used) == Concat(items) <==> AllFit(items, capacity, used)
    ensures |Listed(items, capacity, used)| <= |Concat(items)|
  {
    if items != [] {
      hide Grown;
      ListIsWholeIff(items[1..], Grown(capacity, used + 256), used + |items[0]|);
      SameTail(items[0], Listed(items[1..], Grown(capacity, used + 256), used + |items[0]|), Concat(items[1..]));
    }
  }

  lemma SameTail(a: string, b: string, c: string)
    ensures a + b == a + c <==> b == c
  {
    assert (a + b)[|a|..] == b && (a + c)[|a|..] == c;
  }

  // So it is when no item has 256 characters or more.
  lemma {:induction false} ShortItemsFit(items: seq<string>, capacity: nat, used: nat)
    requires forall i :: 0 <= i < |items| ==> |items[i]| < 256
    ensures AllFit(items, capacity, used)
  {
    if items != [] {
      hide Grown;
      ShortItemsFit(items[1..], Grown(capacity, used + 256), used + |items[0]|);
    }
  }

  // A line with a title of 1024 characters or more is, in a buffer of 1024.
  lemma LongTitleIsCut(kind: string, row: IndexRow)
    requires |row.title| >= DEFAULT_BUFFER_SIZE
    ensures Listed(Lines(kind, [row]), DEFAULT_BUFFER_SIZE, 0) != Concat(Lines(kind, [row]))
  {
    assert Room(DEFAULT_BUFFER_SIZE, 0) == DEFAULT_BUFFER_SIZE;
    assert !AllFit(Lines(kind, [row]), DEFAULT_BUFFER_SIZE, 0);
    ListIsWholeIff(Lines(kind, [row]), DEFAULT_BUFFER_SIZE, 0);
  }

  // ----- Reading a list -----

  // What a browser makes of a line: where its link leads, and the text of the link.
  datatype Item = Item(id: string, href: string, text: string)

  datatype Cut = Cut(text: string, rest: string)

  function Behind(s: string, word: string): Option<string> {
    if |word| <= |s| && s[..|word|] == word then Some(s[|word|..]) else None
  }

  // The text between an opening and the next such character.
  function Between(s: string, opening: string, stop: char): Option<Cut> {
    match Behind(s, opening)
    case None => None
    case Some(t) => match IndexOf(t, stop) case None => None case Some(i) => Some(Cut(t[..i], t[i..]))
  }

  function ReadItem(s: string): Option<(Item, string)> {
    match Between(s, "<li id=\"", '\"')
    case None => None
    case Some(id) =>
      match Between(id.rest, "\"><a href=\"", '\"')
      case None => None
      case Some(href) =>
        match Between(href.rest, "\">", '<')
        case None => None
        case Some(text) =>
          match Behind(text.rest, "</a></li>")
          case None => None
          case Some(rest) => Some((Item(id.text, href.text, text.text), rest))
  }

  function ReadList(s: string): Option<seq<Item>>
    decreases |s|
  {
    if s == "" then Some([])
    else match ReadItem(s)
      case None => None
      case Some((item, rest)) =>
        if |rest| >= |s| then None
        else match ReadList(rest) case None => None case Some(items) => Some([item] + items)
  }

  lemma BetweenIs(opening: string, text: string, stop: char, rest: string)
    requires stop !in text
    ensures Between(opening + text + [stop] + rest, opening, stop) == Some(Cut(text, [stop] + rest))
  {
    var s := opening + text + [stop] + rest;
    var t := text + [stop] + rest;
    assert s == opening + t;
    BehindIs(opening, t);
    IndexOfFirst(text, stop, rest);
    assert t[..|text|] == text && t[|text|..] == [stop] + rest;
  }

  // Ids without quotes and titles without tags.
  predicate Plain(row: IndexRow) { '\"' !in row.id && '<' !in row.title }

  function ItemOf(kind: string, row: IndexRow): Item { Item(row.id, "/" + kind + "/" + row.id, row.title) }

  function Items(kind: string, rows: seq<IndexRow>): (items: seq<Item>)
    ensures |items| == |rows| && forall i :: 0 <= i < |rows| ==> items[i] == ItemOf(kind, rows[i])
  {
    if rows == [] then [] else [ItemOf(kind, rows[0])] + Items(kind, rows[1..])
  }

  lemma ItemReadsBack(kind: string, row: IndexRow, rest: string)
    requires Plain(row) && '\"' !in kind
    ensures ReadItem(ListItem(kind, row) + rest) == Some((ItemOf(kind, row), rest))
  {
    hide Between, Behind;
    var quote, s := ['\"'], ListItem(kind, row) + rest;
    var end := "</a></li>" + rest;
    var text := "\">" + row.title + end;
    var link := "\"><a href=\"" + ("/" + kind + "/" + row.id) + text;
    assert s == "<li id=\"" + row.id + link;
    BetweenIs("<li id=\"", row.id, '\"', link[1..]);
    assert link == quote + link[1..];
    BetweenIs("\"><a href=\"", "/" + kind + "/" + row.id, '\"', text[1..]);
    assert text == quote + text[1..];
    BetweenIs("\">", row.title, '<', end[1..]);
    assert end == ['<'] + end[1..];
    BehindIs("</a></li>", rest);
    Regrouped("<li id=\"", row.id, quote, link[1..]);
    Regrouped("\"><a href=\"", "/" + kind + "/" + row.id, quote, text[1..]);
    Regrouped("\">", row.title, ['<'], end[1..]);
  }

  lemma Regrouped(a: string, b: string, c: string, d: string)
    ensures a + b + c + d == a + b + (c + d)
  {
  }

  lemma BehindIs(word: string, rest: string)
    ensures Behind(word + rest, word) == Some(rest)
  {
    assert (word + rest)[..|word|] == word && (word + rest)[|word|..] == rest;
  }

  // A list reads back as its rows: each link leads to the page of its own row, under its title.
  lemma {:induction false} ListReadsBack(kind: string, rows: seq<IndexRow>)
    requires '\"' !in kind && forall i :: 0 <= i < |rows| ==> Plain(rows[i])
    ensures ReadList(Concat(Lines(kind, rows))) == Some(Items(kind, rows))
  {
    hide ReadItem, ListItem, Plain, ItemOf;
    if rows != [] {
      var rest := Concat(Lines(kind, rows[1..]));
      assert Concat(Lines(kind, rows)) == ListItem(kind, rows[0]) + rest by {
        assert Lines(kind, rows)[1..] == Lines(kind, rows[1..]);
      }
      ItemReadsBack(kind, rows[0], rest);
      ListReadsBack(kind, rows[1..]);
      LineIsLong(kind, rows[0]);
    }
  }

  // So does what is printed when every line fits.
  lemma PrintedListReadsBack(kind: string, rows: seq<IndexRow>, capacity: nat)
    requires '\"' !in kind && forall i :: 0 <= i < |rows| ==> Plain(rows[i])
    requires AllFit(Lines(kind, rows), capacity, 0)
    ensures ReadList(Listed(Lines(kind, rows), capacity, 0)) == Some(Items(kind, rows))
  {
    ListIsWholeIff(Lines(kind, rows), capacity, 0);
    ListReadsBack(kind, rows);
    hide ReadList, Listed;
  }

  lemma LineIsLong(kind: string, row: IndexRow)
    ensures |ListItem(kind, row)| > 0
  {
  }

  // The count left behind is the length of all lines, cut or not. It is within the capacity if and
  // only if the last line, terminator aside, is no longer than the room it finds.
  predicate LastLineFits(items: seq<string>, capacity: nat, used: nat) {
    items != [] ==>
      if |items| == 1 then |items[0]| <= Room(capacity, used)
      else LastLineFits(items[1..], Grown(capacity, used + 256), used + |items[0]|)
  }

  lemma {:induction false} CountIsWithinIff(items: seq<string>, capacity: nat, used: nat)
    requires items == [] ==> used <= capacity
    ensures used + |Concat(items)| <= CapacityAfter(items, capacity, used) <==> LastLineFits(items, capacity, used)
  {
    if |items| == 1 {
      hide Grown;
      assert items[1..] == [];
    } else if |items| > 1 {
      hide Grown;
      CountIsWithinIff(items[1..], Grown(capacity, used + 256), used + |items[0]|);
    }
  }

  // The characters of a row that is read, as C strings.
  predicate AllCStrings(rows: seq<IndexRow>) {
    forall i :: 0 <= i < |rows| ==> NoNul(rows[i].id) && NoNul(rows[i].title)
  }

  lemma LineIsCString(kind: string, row: IndexRow)
    requires NoNul(kind) && NoNul(row.id) && NoNul(row.title)
    ensures NoNul(ListItem(kind, row))
  {
    TagsHaveNoNul();
    hide NoNul;
    NoNulJoin("<li id=\"", row.id);
    NoNulJoin("<li id=\"" + row.id, "\"><a href=\"/");
    NoNulJoin("<li id=\"" + row.id + "\"><a href=\"/", kind);
    NoNulJoin("<li id=\"" + row.id + "\"><a href=\"/" + kind, "/");
    NoNulJoin("<li id=\"" + row.id + "\"><a href=\"/" + kind + "/", row.id);
    NoNulJoin("<li id=\"" + row.id + "\"><a href=\"/" + kind + "/" + row.id, "\">");
    NoNulJoin("<li id=\"" + row.id + "\"><a href=\"/" + kind + "/" + row.id + "\">", row.title);
    NoNulJoin("<li id=\"" + row.id + "\"><a href=\"/" + kind + "/" + row.id + "\">" + row.title, "</a></li>");
  }

  lemma NoNulJoin(a: string, b: string)
    requires NoNul(a) && NoNul(b)
    ensures NoNul(a + b)
  {
  }

  lemma TagsHaveNoNul()
    ensures NoNul("<li id=\"") && NoNul("\"><a href=\"/") && NoNul("/") && NoNul("\">") && NoNul("</a></li>")
  {
  }

  // What is in memory before the first terminator.
  ghost predicate Holds(data: array<char>, text: string)
    reads data
  {
    |text| < data.Length && data[..|text|] == text && data[|text|] == '\0' && NoNul(text)
  }

  method ReadBack(data: array<char>, ghost text: string) returns (list: string)
    requires Holds(data, text)
    ensures list == text
  {
    assert forall k :: 0 <= k < |text| ==> data[..][k] == data[..|text|][k];
    TerminatorIs(data[..], 0, |text|);
    list := data[..Terminator(data[..], 0).value];
  }

  // memset to zero.
  method Clear(data: array<char>)
    requires data.Length > 0
    modifies data
    ensures Holds(data, "")
  {
    forall i | 0 <= i < data.Length {
      data[i] := '\0';
    }
  }

  // One round of the loop: room for 256 bytes, and one snprintf. `text` is what is there.
  method PutItem(tmp: Buffer, used: nat, item: string, ghost text: string)
    requires tmp.Valid() && tmp.data != null && tmp.capacity < 0x8000_0000 && tmp.count == 0
    requires Holds(tmp.data, text) && |text| <= used && NoNul(item) && 2 * (used + 256) <= 0x8000_0000
    modifies tmp, tmp.data
    ensures tmp.Valid() && tmp.data != null && tmp.capacity < 0x8000_0000 && tmp.count == 0
    ensures tmp.data == old(tmp.data) || fresh(tmp.data)
    ensures tmp.capacity == Grown(old(tmp.capacity), used + 256)
    ensures Holds(tmp.data, if |text| == used then text + Printed(item, Room(old(tmp.capacity), used)) else text)
  {
    GrownReaches(tmp.capacity, used + 256);
    GrownIsInt(tmp.capacity, used + 256);
    ghost var before := tmp.data[..];
    var grown := tmp.EnsureCapacity(used + 256, true);
    assert tmp.data[..|before|] == before;
    assert tmp.data[..|text|] == before[..|text|] && tmp.data[|text|] == before[|text|];
    PutText(tmp.data, used, item, text);
  }

  lemma GrownIsInt(c: nat, request: nat)
    requires c < 0x8000_0000 && 2 * request <= 0x8000_0000
    ensures Grown(c, request) < 0x8000_0000
  {
  }

  method PutText(data: array<char>, used: nat, item: string, ghost text: string)
    requires Holds(data, text) && |text| <= used < data.Length && NoNul(item)
    modifies data
    ensures Holds(data, if |text| == used then text + Printed(item, data.Length - used) else text)
  {
    var room := data.Length - used;
    ghost var before := data[..used];
    var n := Snprintf(data, used, item);
    assert data[..used] == before;
    if |text| < used {
      assert data[..|text|] == before[..|text|] && data[|text|] == before[|text|];
    } else {
      var whole := text + Printed(item, room);
      if |item| >= room {
        assert data[..] == text + item[..room - 1] + ['\0'];
      }
      assert data[..|whole|] == whole && data[|whole|] == '\0';
    }
  }

  // Where the loop is: what is still to come, what is there, and the list it will be.
  ghost predicate Underway(rest: seq<string>, capacity: nat, used: nat, text: string, list: string, end: nat) {
    && |text| <= used
    && list == text + (if |text| < used then "" else Listed(rest, capacity, used))
    && end == CapacityAfter(rest, capacity, used)
  }

  lemma NextItem(rest: seq<string>, capacity: nat, used: nat, text: string, list: string, end: nat)
    requires rest != [] && Underway(rest, capacity, used, text, list, end)
    ensures var text' := if |text| == used then text + Printed(rest[0], Room(capacity, used)) else text;
            Underway(rest[1..], Grown(capacity, used + 256), used + |rest[0]|, text', list, end)
  {
    hide Grown;
    if |text| == used {
      var printed := Printed(rest[0], Room(capacity, used));
      var more := if |rest[0]| < Room(capacity, used)
        then Listed(rest[1..], Grown(capacity, used + 256), used + |rest[0]|) else "";
      assert text + (printed + more) == (text + printed) + more;
    }
  }

  lemma LastItem(capacity: nat, used: nat, text: string, list: string, end: nat)
    requires Underway([], capacity, used, text, list, end)
    ensures text == list && capacity == end
  {
  }

  // The list assembled in the other buffer. `used` is its count, which runs ahead of what is there
  // when an item is cut.
  method AssembleList(tmp: Buffer, kind: string, rows: seq<IndexRow>) returns (list: string, used: nat)
    requires tmp.Valid() && tmp.data != null && 0 < tmp.capacity < 0x8000_0000 && tmp.count == 0
    requires NoNul(kind) && AllCStrings(rows) && 2 * (|Concat(Lines(kind, rows))| + 256) <= 0x8000_0000
    modifies tmp, tmp.data
    ensures tmp.Valid() && tmp.data != null && 0 < tmp.capacity < 0x8000_0000 && tmp.count == 0
    ensures tmp.data == old(tmp.data) || fresh(tmp.data)
    ensures list == Listed(Lines(kind, rows), old(tmp.capacity), 0) && NoNul(list)
    ensures tmp.capacity == CapacityAfter(Lines(kind, rows), old(tmp.capacity), 0)
    ensures used == |Concat(Lines(kind, rows))|
  {
    hide Grown, NoNul, Underway, Concat, Listed, CapacityAfter, ListItem;
    Clear(tmp.data);
    var i: nat := 0;
    used := 0;
    ghost var items := Lines(kind, rows);
    ghost var text, all, end := "", Listed(items, tmp.capacity, 0), CapacityAfter(items, tmp.capacity, 0);
    assert items[0..] == items;
    NothingYet(items, tmp.capacity);
    while i < |rows|
      invariant i <= |items| && tmp.Valid() && tmp.data != null && 0 < tmp.capacity < 0x8000_0000 && tmp.count == 0
      invariant tmp.data == old(tmp.data) || fresh(tmp.data)
      invariant Holds(tmp.data, text) && |text| <= used && Underway(items[i..], tmp.capacity, used, text, all, end)
      invariant used + |Concat(items[i..])| == |Concat(items)|
    {
      NextItem(items[i..], tmp.capacity, used, text, all, end);
      ConcatStep(items, i);
      LineIsCString(kind, rows[i]);
      ghost var capacity := tmp.capacity;
      var item := ListItem(kind, rows[i]);
      PutItem(tmp, used, item, text);
      text := if |text| == used then text + Printed(item, Room(capacity, used)) else text;
      used := used + |item|;
      i := i + 1;
    }
    assert items[i..] == [];
    NoItems();
    LastItem(tmp.capacity, used, text, all, end);
    list := ReadBack(tmp.data, text);
  }

  lemma NoItems()
    ensures Concat([]) == ""
  {
  }

  lemma NothingYet(items: seq<string>, capacity: nat)
    ensures Underway(items, capacity, 0, "", Listed(items, capacity, 0), CapacityAfter(items, capacity, 0))
  {
    assert "" + Listed(items, capacity, 0) == Listed(items, capacity, 0);
  }

  lemma ConcatStep(items: seq<string>, i: nat)
    requires i < |items|
    ensures items[i..][0] == items[i] && items[i..][1..] == items[i + 1..]
    ensures |Concat(items[i..])| == |items[i]| + |Concat(items[i + 1..])|
  {
  }
}
