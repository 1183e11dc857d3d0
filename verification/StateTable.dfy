/** The table of states of every path, from the listings of the sides. */
module StateTable {
  import opened Texts
  import opened RelativePath
  import opened ScanData
  import opened Compare

  /** One thing a listing says of a path. */
  datatype Item = Item(path: string, state: SideState, permissions: Option<nat>)

  function Found(listing: Listing): (items: seq<Item>)
    ensures |items| == |listing.entries| + |listing.unreadableNames|
  {
    seq(|listing.entries|, i requires 0 <= i < |listing.entries| =>
      var e := listing.entries[i]; Item(e.path, StateOfEntry(e), Some(e.permissions)))
    + seq(|listing.unreadableNames|, i requires 0 <= i < |listing.unreadableNames| =>
      Item(listing.unreadableNames[i], UnreadableName, None))
  }

  /** Every item found is there; nothing found is absent. */
  lemma FoundIsPresent(listing: Listing)
    ensures forall item :: item in Found(listing) ==> item.state != Absent
  {
  }

  /** The last state found for a path. */
  function LastState(items: seq<Item>, path: string): Option<SideState> {
    if items == [] then None
    else
      var last := items[|items| - 1];
      if last.path == path then Some(last.state) else LastState(items[..|items| - 1], path)
  }

  function LastPermissions(items: seq<Item>, path: string): Option<nat> {
    if items == [] then None
    else
      var last := items[|items| - 1];
      if last.path == path && last.permissions.Some? then last.permissions
        else LastPermissions(items[..|items| - 1], path)
  }

  lemma {:induction false} LastStateIsFound(items: seq<Item>, path: string)
    ensures LastState(items, path).Some? <==> exists item :: item in items && item.path == path
    ensures LastState(items, path).Some? ==>
            exists item :: item in items && item.path == path && item.state == LastState(items, path).value
  {
    if items != [] {
      LastStateIsFound(items[..|items| - 1], path);
      assert items == items[..|items| - 1] + [items[|items| - 1]];
    }
  }

  predicate BelowLink(path: string, links: seq<string>) {
    exists link :: link in links && IsBelow(path, link)
  }

  const NONE_KNOWN := PathStates(map[], {}, {}, map[])

  /** What the table says of a path and a role once `items` have been read for the role. */
  ghost predicate ReadSoFar(s: PathStates, items: seq<Item>, links: seq<string>, role: Role, path: string) {
    var listed, below := LastState(items, path), BelowLink(path, links);
    && (role in s.notCollected <==> listed.Some? && below)
    && (role in s.states <==> listed.Some? && !below)
    && (role in s.states ==> s.states[role] == listed.value)
    && (role in s.outside <==> listed.Some? && !below && path in links)
    && (role in s.permissions <==> LastPermissions(items, path).Some? && !below)
    && (role in s.permissions ==> s.permissions[role] == LastPermissions(items, path).value)
  }

  /** The two say the same of a role. */
  ghost predicate SameRole(a: PathStates, b: PathStates, role: Role) {
    && (role in a.states <==> role in b.states) && (role in a.states ==> a.states[role] == b.states[role])
    && (role in a.outside <==> role in b.outside) && (role in a.notCollected <==> role in b.notCollected)
    && (role in a.permissions <==> role in b.permissions)
         && (role in a.permissions ==> a.permissions[role] == b.permissions[role])
  }

  type Table = map<string, PathStates>

  function Row(table: Table, path: string): PathStates {
    if path in table then table[path] else NONE_KNOWN
  }

  /** Reading one item of a role into the row of its path. */
  function ReadItem(s: PathStates, item: Item, links: seq<string>, role: Role): PathStates {
    if BelowLink(item.path, links) then s.(notCollected := s.notCollected + {role})
    else
      PathStates(s.states[role := item.state],
                 if item.path in links then s.outside + {role} else s.outside,
                 s.notCollected,
                 if item.permissions.Some? then s.permissions[role := item.permissions.value] else s.permissions)
  }

  lemma ReadItemReads(s: PathStates, items: seq<Item>, item: Item, links: seq<string>, role: Role)
    requires ReadSoFar(s, items, links, role, item.path)
    ensures ReadSoFar(ReadItem(s, item, links, role), items + [item], links, role, item.path)
    ensures forall r :: r != role ==> SameRole(ReadItem(s, item, links, role), s, r)
  {
    assert (items + [item])[..|items|] == items;
    hide BelowLink;
  }

  lemma OtherItemReads(s: PathStates, items: seq<Item>, item: Item, links: seq<string>, role: Role, path: string)
    requires ReadSoFar(s, items, links, role, path) && item.path != path
    ensures ReadSoFar(s, items + [item], links, role, path)
  {
    assert (items + [item])[..|items|] == items;
  }

  /** All of `items` of one role have been read into the table, and nothing else has changed. */
  ghost predicate RoleRead(before: Table, table: Table, items: seq<Item>, links: seq<string>, role: Role) {
    && (forall path :: path in table <==> path in before || LastState(items, path).Some?)
    && (forall path :: path in table ==> ReadSoFar(table[path], items, links, role, path))
    && (forall path, r :: path in table && r != role ==> SameRole(table[path], Row(before, path), r))
  }

  lemma OneMoreRead(before: Table, table: Table, items: seq<Item>, item: Item, links: seq<string>, role: Role)
    requires RoleRead(before, table, items, links, role)
    ensures RoleRead(before, table[item.path := ReadItem(Row(table, item.path), item, links, role)], items + [item],
              links, role)
  {
    hide ReadItem, ReadSoFar, SameRole;
    var t := table[item.path := ReadItem(Row(table, item.path), item, links, role)];
    assert (items + [item])[..|items|] == items;
    if item.path !in table {
      NothingReadYet(items, links, role, item.path);
    }
    ReadItemReads(Row(table, item.path), items, item, links, role);
    forall path | path in t ensures ReadSoFar(t[path], items + [item], links, role, path) {
      if path != item.path {
        OtherItemReads(table[path], items, item, links, role, path);
      }
    }
    forall path, r | path in t && r != role ensures SameRole(t[path], Row(before, path), r) {
      if path == item.path {
        SameRoleIsTransitive(t[path], Row(table, path), Row(before, path), r);
      }
    }
  }

  lemma SameRoleIsTransitive(a: PathStates, b: PathStates, c: PathStates, r: Role)
    requires SameRole(a, b, r) && (SameRole(b, c, r) || b == c)
    ensures SameRole(a, c, r)
  {
  }

  lemma {:induction false} NothingReadYet(items: seq<Item>, links: seq<string>, role: Role, path: string)
    requires LastState(items, path) == None
    ensures ReadSoFar(NONE_KNOWN, items, links, role, path)
  {
    if items != [] {
      NothingReadYet(items[..|items| - 1], links, role, path);
    }
  }

  /** Reads the listing of one role into the table. */
  method ReadRole(before: Table, listing: Listing, links: seq<string>, role: Role) returns (table: Table)
    requires forall path :: path in before ==> ReadSoFar(before[path], [], links, role, path)
    ensures RoleRead(before, table, Found(listing), links, role)
  {
    hide ReadItem, ReadSoFar, SameRole, Found;
    table := before;
    var found := Found(listing);
    SameTable(before);
    for i := 0 to |found|
      invariant RoleRead(before, table, found[..i], links, role)
    {
      var item := found[i];
      OneMoreRead(before, table, found[..i], item, links, role);
      assert found[..i + 1] == found[..i] + [item];
      var belowLink := BelowLink(item.path, links);
      var isLink := item.path in links;
      var row := Row(table, item.path);
      ReadItemAs(row, item, links, role);
      if belowLink {
        row := row.(notCollected := row.notCollected + {role});
      } else {
        if isLink {
          row := row.(outside := row.outside + {role});
        }
        if item.permissions.Some? {
          row := row.(permissions := row.permissions[role := item.permissions.value]);
        }
        row := row.(states := row.states[role := item.state]);
      }
      table := table[item.path := row];
    }
    assert found[..|found|] == found;
  }

  lemma SameTable(before: Table)
    ensures forall path, r :: path in before ==> SameRole(before[path], Row(before, path), r)
  {
  }

  lemma ReadItemAs(s: PathStates, item: Item, links: seq<string>, role: Role)
    ensures ReadItem(s, item, links, role) ==
      (if BelowLink(item.path, links) then s.(notCollected := s.notCollected + {role})
       else
         var a := if item.path in links then s.(outside := s.outside + {role}) else s;
         var b := if item.permissions.Some? then a.(permissions := a.permissions[role := item.permissions.value])
             else a;
         b.(states := b.states[role := item.state]))
  {
  }

  // ----- The whole table -----

  const ROLES: seq<Role> := [Left, Right, Ref, Target]

  predicate Complete(listing: Listing) {
    !listing.truncated && listing.cycle == None
  }

  function LinksOf(outside: map<Role, seq<string>>, role: Role): seq<string> {
    if role in outside then outside[role] else []
  }

  predicate Lists(listing: Listing, path: string) {
    LastState(Found(listing), path).Some?
  }

  /** The listings of the roles in `done` have been read, and no other. */
  ghost predicate RolesRead(table: Table, listings: map<Role, Listing>, outside: map<Role, seq<string>>,
                            done: set<Role>)
    requires done <= listings.Keys
  {
    && (forall path, role :: path in table && role in done ==>
          ReadSoFar(table[path], Found(listings[role]), LinksOf(outside, role), role, path))
    && (forall path, role :: path in table && role !in done ==> SameRole(table[path], NONE_KNOWN, role))
    && (forall path :: path in table <==> ListedBy(listings, done, path))
  }

  ghost predicate ListedBy(listings: map<Role, Listing>, roles: set<Role>, path: string)
    requires roles <= listings.Keys
  {
    exists role :: role in roles && Lists(listings[role], path)
  }

  lemma UnreadIsUnknown(s: PathStates, links: seq<string>, role: Role, path: string)
    requires SameRole(s, NONE_KNOWN, role)
    ensures ReadSoFar(s, [], links, role, path)
  {
  }

  lemma SameRoleReads(a: PathStates, b: PathStates, items: seq<Item>, links: seq<string>, role: Role, path: string)
    requires SameRole(a, b, role) && ReadSoFar(b, items, links, role, path)
    ensures ReadSoFar(a, items, links, role, path)
  {
  }

  lemma ListedByOneMore(listings: map<Role, Listing>, done: set<Role>, role: Role, path: string)
    requires done <= listings.Keys && role in listings
    ensures ListedBy(listings, done + {role}, path)
            <==> ListedBy(listings, done, path) || LastState(Found(listings[role]), path).Some?
  {
    assert Lists(listings[role], path) <==> LastState(Found(listings[role]), path).Some?;
    hide Lists;
    if ListedBy(listings, done, path) {
      var r :| r in done && Lists(listings[r], path);
      assert r in done + {role};
    }
    assert role in done + {role};
  }

  lemma OneMoreRole(before: Table, table: Table, listings: map<Role, Listing>, outside: map<Role, seq<string>>,
                    done: set<Role>, role: Role)
    requires done <= listings.Keys && role in listings && role !in done
    requires RolesRead(before, listings, outside, done)
    requires RoleRead(before, table, Found(listings[role]), LinksOf(outside, role), role)
    ensures RolesRead(table, listings, outside, done + {role})
  {
    forall path ensures path in table <==> ListedBy(listings, done + {role}, path) {
      ListedByOneMore(listings, done, role, path);
    }
    hide ReadSoFar, SameRole, Found, ListedBy;
    forall path, r | path in table && r in done
      ensures ReadSoFar(table[path], Found(listings[r]), LinksOf(outside, r), r, path)
    {
      if path !in before {
        UnlistedIsUnread(listings[r], LinksOf(outside, r), r, path);
      }
      SameRoleReads(table[path], Row(before, path), Found(listings[r]), LinksOf(outside, r), r, path);
    }
    forall path, r | path in table && r !in done + {role} ensures SameRole(table[path], NONE_KNOWN, r) {
      SameRoleIsTransitive(table[path], Row(before, path), NONE_KNOWN, r);
    }
  }

  lemma UnlistedIsUnread(listing: Listing, links: seq<string>, role: Role, path: string)
    requires !Lists(listing, path)
    ensures ReadSoFar(NONE_KNOWN, Found(listing), links, role, path)
  {
    NothingReadYet(Found(listing), links, role, path);
  }

  /** What the finished table says of a path and a scanned role: what the listing said last, or, if it
      said nothing, that the path is absent when the listing is complete and not known otherwise. */
  ghost predicate Told(s: PathStates, listing: Listing, links: seq<string>, role: Role, path: string) {
    if LastState(Found(listing), path).Some? then ReadSoFar(s, Found(listing), links, role, path)
    else
      && role !in s.outside && role !in s.permissions
      && (role in s.states <==> Complete(listing)) && (role in s.states ==> s.states[role] == Absent)
      && (role in s.notCollected <==> !Complete(listing))
  }

  /** Fills in what was not listed for a role. */
  function FillIn(s: PathStates, listing: Listing, role: Role): PathStates {
    if role in s.notCollected || role in s.states then s
    else if listing.truncated || listing.cycle.Some? then s.(notCollected := s.notCollected + {role})
    else s.(states := s.states[role := Absent])
  }

  lemma FillInTells(s: PathStates, listing: Listing, links: seq<string>, role: Role, path: string)
    requires ReadSoFar(s, Found(listing), links, role, path)
    ensures Told(FillIn(s, listing, role), listing, links, role, path)
    ensures forall r :: r != role ==> SameRole(FillIn(s, listing, role), s, r)
  {
    hide Found, LastState, BelowLink;
    if LastState(Found(listing), path) == None {
      NoStateNoPermissions(Found(listing), path);
    }
  }

  lemma {:induction false} NoStateNoPermissions(items: seq<Item>, path: string)
    requires LastState(items, path) == None
    ensures LastPermissions(items, path) == None
  {
    if items != [] {
      NoStateNoPermissions(items[..|items| - 1], path);
    }
  }

  /** The row after filling in the roles in `done`. */
  ghost predicate RowTold(s: PathStates, read: PathStates, listings: map<Role, Listing>, outside: map<Role,
                          seq<string>>, path: string, done: set<Role>)
    requires done <= listings.Keys
  {
    && (forall role :: role in done ==> Told(s, listings[role], LinksOf(outside, role), role, path))
    && (forall role :: role !in done ==> SameRole(s, read, role))
  }

  lemma SameRoleTells(a: PathStates, b: PathStates, listing: Listing, links: seq<string>, role: Role, path: string)
    requires SameRole(a, b, role) && Told(b, listing, links, role, path)
    ensures Told(a, listing, links, role, path)
  {
  }

  lemma FilledIn(s: PathStates, read: PathStates, listings: map<Role, Listing>, outside: map<Role, seq<string>>,
                 path: string, done: set<Role>, role: Role)
    requires done <= listings.Keys && role in listings && role !in done
    requires RowTold(s, read, listings, outside, path, done)
    requires ReadSoFar(read, Found(listings[role]), LinksOf(outside, role), role, path)
    ensures RowTold(FillIn(s, listings[role], role), read, listings, outside, path, done + {role})
  {
    hide ReadSoFar, SameRole, Told, FillIn, Found;
    SameRoleReads(s, read, Found(listings[role]), LinksOf(outside, role), role, path);
    FillInTells(s, listings[role], LinksOf(outside, role), role, path);
    var t := FillIn(s, listings[role], role);
    forall r | r in done ensures Told(t, listings[r], LinksOf(outside, r), r, path) {
      SameRoleTells(t, s, listings[r], LinksOf(outside, r), r, path);
    }
    forall r | r !in done + {role} ensures SameRole(t, read, r) {
      SameRoleIsTransitive(t, s, read, r);
    }
  }

  /** The roles of the listings among the first n. */
  ghost function DoneUpTo(listings: map<Role, Listing>, n: nat): (done: set<Role>)
    requires n <= |ROLES|
    ensures done <= listings.Keys
  {
    set role | role in listings && role in ROLES[..n]
  }

  lemma NextDone(listings: map<Role, Listing>, n: nat)
    requires n < |ROLES|
    ensures ROLES[n] !in DoneUpTo(listings, n)
    ensures DoneUpTo(listings, n + 1) == if ROLES[n] in listings then DoneUpTo(listings, n) + {ROLES[n]}
            else DoneUpTo(listings, n)
  {
    assert ROLES[..n + 1] == ROLES[..n] + [ROLES[n]];
  }

  lemma AllDone(listings: map<Role, Listing>)
    ensures DoneUpTo(listings, 0) == {}
    ensures DoneUpTo(listings, |ROLES|) == listings.Keys
  {
    assert ROLES[0] == Left && ROLES[1] == Right && ROLES[2] == Ref && ROLES[3] == Target;
    assert ROLES[..|ROLES|] == ROLES;
    forall role: Role ensures role in ROLES {
      match role
      case Left => assert ROLES[0] == role;
      case Right => assert ROLES[1] == role;
      case Ref => assert ROLES[2] == role;
      case Target => assert ROLES[3] == role;
    }
  }

  method FillRow(read: PathStates, listings: map<Role, Listing>, ghost outside: map<Role, seq<string>>,
                 ghost path: string)
      returns (s: PathStates)
    requires forall role :: role in listings ==>
             ReadSoFar(read, Found(listings[role]), LinksOf(outside, role), role, path)
    ensures RowTold(s, read, listings, outside, path, listings.Keys)
  {
    hide ReadSoFar, SameRole, Told, FillIn, Found, DoneUpTo;
    s := read;
    AllDone(listings);
    SameRow(read);
    for n := 0 to |ROLES|
      invariant RowTold(s, read, listings, outside, path, DoneUpTo(listings, n))
    {
      var role := ROLES[n];
      NextDone(listings, n);
      if role in listings {
        FilledIn(s, read, listings, outside, path, DoneUpTo(listings, n), role);
        s := FillIn(s, listings[role], role);
      }
    }
  }

  lemma SameRow(s: PathStates)
    ensures forall r :: SameRole(s, s, r)
  {
  }

  /** The finished table. */
  ghost predicate Tells(table: Table, listings: map<Role, Listing>, outside: map<Role, seq<string>>) {
    && (forall path :: path in table <==> ListedBy(listings, listings.Keys, path))
    && (forall path, role :: path in table && role in listings ==>
          Told(table[path], listings[role], LinksOf(outside, role), role, path))
    && (forall path, role :: path in table && role !in listings ==> SameRole(table[path], NONE_KNOWN, role))
  }

  /** Reads all listings. */
  method ReadRoles(listings: map<Role, Listing>, outside: map<Role, seq<string>>) returns (table: Table)
    ensures RolesRead(table, listings, outside, listings.Keys)
  {
    hide ReadSoFar, SameRole, Found, Lists, DoneUpTo;
    table := map[];
    AllDone(listings);
    for n := 0 to |ROLES|
      invariant RolesRead(table, listings, outside, DoneUpTo(listings, n))
    {
      var role := ROLES[n];
      NextDone(listings, n);
      if role in listings {
        ghost var before := table;
        forall path | path in table ensures ReadSoFar(table[path], [], LinksOf(outside, role), role, path) {
          UnreadIsUnknown(table[path], LinksOf(outside, role), role, path);
        }
        table := ReadRole(table, listings[role], LinksOf(outside, role), role);
        OneMoreRole(before, table, listings, outside, DoneUpTo(listings, n), role);
      }
    }
  }

  /** Reads all listings, then fills in what each of them did not list. */
  method MakeTable(listings: map<Role, Listing>, outside: map<Role, seq<string>>) returns (table: Table)
    ensures Tells(table, listings, outside)
  {
    hide ReadSoFar, SameRole, Told, Found, RowTold, RolesRead, Lists;
    table := ReadRoles(listings, outside);
    ghost var read := table;
    var todo := table.Keys;
    while todo != {}
      invariant todo <= read.Keys == table.Keys
      invariant forall path :: path in todo ==> table[path] == read[path]
      invariant forall path :: path in read && path !in todo ==>
                RowTold(table[path], read[path], listings, outside, path, listings.Keys)
      decreases |todo|
    {
      var path :| path in todo;
      RowIsRead(read, listings, outside, path);
      var s := FillRow(table[path], listings, outside, path);
      table := table[path := s];
      todo := todo - {path};
    }
    TableTells(read, table, listings, outside);
  }

  lemma RowIsRead(read: Table, listings: map<Role, Listing>, outside: map<Role, seq<string>>, path: string)
    requires RolesRead(read, listings, outside, listings.Keys) && path in read
    ensures forall role :: role in listings ==>
            ReadSoFar(read[path], Found(listings[role]), LinksOf(outside, role), role, path)
  {
    hide ReadSoFar, SameRole, Found, ListedBy;
  }

  lemma TableTells(read: Table, table: Table, listings: map<Role, Listing>, outside: map<Role, seq<string>>)
    requires RolesRead(read, listings, outside, listings.Keys) && table.Keys == read.Keys
    requires forall path :: path in read ==> RowTold(table[path], read[path], listings, outside, path, listings.Keys)
    ensures Tells(table, listings, outside)
  {
    hide ReadSoFar, SameRole, Told, Found, ListedBy;
    forall path, role | path in table && role in listings
      ensures Told(table[path], listings[role], LinksOf(outside, role), role, path)
    {
      assert RowTold(table[path], read[path], listings, outside, path, listings.Keys);
    }
    forall path, role | path in table && role !in listings ensures SameRole(table[path], NONE_KNOWN, role) {
      assert RowTold(table[path], read[path], listings, outside, path, listings.Keys);
      SameRoleIsTransitive(table[path], read[path], NONE_KNOWN, role);
    }
  }

  // ----- What one listed entry is told as -----

  /** The entry is the last thing the listing says of its path. */
  ghost predicate LastWord(listing: Listing, i: nat) {
    && i < |listing.entries|
    && (forall j :: i < j < |listing.entries| ==> listing.entries[j].path != listing.entries[i].path)
    && listing.entries[i].path !in listing.unreadableNames
  }

  lemma {:induction false} LastStateIs(items: seq<Item>, i: nat)
    requires i < |items| && forall j :: i < j < |items| ==> items[j].path != items[i].path
    ensures LastState(items, items[i].path) == Some(items[i].state)
    ensures items[i].permissions.Some? ==> LastPermissions(items, items[i].path) == items[i].permissions
    decreases |items| - i
  {
    if i + 1 < |items| {
      LastStateIs(items[..|items| - 1], i);
    }
  }

  lemma EntryIsLast(listing: Listing, i: nat)
    requires LastWord(listing, i)
    ensures LastState(Found(listing), listing.entries[i].path) == Some(StateOfEntry(listing.entries[i]))
    ensures LastPermissions(Found(listing), listing.entries[i].path) == Some(listing.entries[i].permissions)
  {
    var items, n := Found(listing), |listing.entries|;
    forall j | i < j < |items| ensures items[j].path != items[i].path {
      if j >= n { assert items[j].path == listing.unreadableNames[j - n]; }
    }
    LastStateIs(items, i);
  }

  /** The entry as a state: the size and time of a file, the text of a link and where it points. */
  ghost predicate TellsEntry(state: SideState, e: ListedEntry) {
    match e.kind
    case ListedFile => state == File(Some(e.size), Some(Mtime(e.secs, e.nanos, e.digits)))
    case ListedDirectory => state == Directory
    case ListedSymlink(target, pointsTo) => state == Symlink(target, pointsTo)
    case ListedOther => state == Other
  }

  /** What the table says of a listed entry: nothing if it lies below a link that leads outside root_dir,
      for then it was not collected, and else the entry itself, its permissions, and whether it is such a
      link. */
  lemma EntryIsTold(table: Table, listings: map<Role, Listing>, outside: map<Role, seq<string>>, role: Role, i: nat)
    requires Tells(table, listings, outside) && role in listings && LastWord(listings[role], i)
    ensures var e := listings[role].entries[i];
            var links := if role in outside then outside[role] else [];
            && e.path in table
            && var row := table[e.path];
               if exists link :: link in links && link + "/" <= e.path
               then role in row.notCollected && role !in row.states
               else
                 && role in row.states && TellsEntry(row.states[role], e) && role !in row.notCollected
                 && role in row.permissions && row.permissions[role] == e.permissions
                 && (role in row.outside <==> e.path in links)
  {
    var listing, e := listings[role], listings[role].entries[i];
    EntryIsLast(listing, i);
    hide Found, LastState, LastPermissions;
    assert ListedBy(listings, listings.Keys, e.path) by { assert Lists(listing, e.path); }
    assert Told(table[e.path], listing, LinksOf(outside, role), role, e.path);
    BelowIsPrefix(e.path, LinksOf(outside, role));
  }

  lemma BelowIsPrefix(path: string, links: seq<string>)
    ensures BelowLink(path, links) <==> exists link :: link in links && link + "/" <= path
  {
    forall link ensures IsBelow(path, link) <==> link + "/" <= path {
      if link + "/" <= path {
        assert (link + "/")[|link|] == path[|link|];
      }
      if IsBelow(path, link) {
        assert link + "/" == path[..|link| + 1];
      }
    }
  }

  /** A name that is not UTF-8 is told as unreadable, apart from names below a link that leads outside. */
  lemma UnreadableIsTold(table: Table, listings: map<Role, Listing>, outside: map<Role, seq<string>>, role: Role,
                         i: nat)
    requires Tells(table, listings, outside) && role in listings && i < |listings[role].unreadableNames|
    ensures var name := listings[role].unreadableNames[i];
            var links := if role in outside then outside[role] else [];
            && name in table
            && var row := table[name];
               if exists link :: link in links && link + "/" <= name
               then role in row.notCollected && role !in row.states
               else role in row.states && row.states[role] == UnreadableName
  {
    var listing, name := listings[role], listings[role].unreadableNames[i];
    NameIsLast(Found(listing), |listing.entries|, i, name);
    hide Found, LastState, LastPermissions;
    assert ListedBy(listings, listings.Keys, name) by { assert Lists(listing, name); }
    assert Told(table[name], listing, LinksOf(outside, role), role, name);
    BelowIsPrefix(name, LinksOf(outside, role));
  }

  lemma {:induction false} NameIsLast(items: seq<Item>, from: nat, i: nat, name: string)
    requires from + i < |items| && items[from + i].path == name
    requires forall k :: from <= k < |items| ==> items[k].state == UnreadableName
    ensures LastState(items, name) == Some(UnreadableName)
  {
    if items[|items| - 1].path != name {
      NameIsLast(items[..|items| - 1], from, i, name);
    }
  }

  // ----- What the table is good for -----

  /** Each scanned side of a path is in exactly one of the two, and is absent only if a complete listing
      does not list it. */
  lemma SideIsInExactlyOne(table: Table, listings: map<Role, Listing>, outside: map<Role, seq<string>>, path: string,
                           role: Role)
    requires Tells(table, listings, outside) && path in table && role in listings
    ensures role in table[path].states <==> role !in table[path].notCollected
    ensures role in table[path].states && table[path].states[role] == Absent <==>
              !listings[role].truncated && listings[role].cycle == None && !Lists(listings[role], path)
  {
    assert Told(table[path], listings[role], LinksOf(outside, role), role, path);
    LastStateIsFound(Found(listings[role]), path);
    FoundIsPresent(listings[role]);
    hide Found, LastState, BelowLink, Tells;
  }

  /** A side that was not scanned has no state. */
  lemma UnscannedHasNoState(table: Table, listings: map<Role, Listing>, outside: map<Role, seq<string>>,
                            path: string, role: Role)
    requires Tells(table, listings, outside) && path in table && role in table[path].states
    ensures role in listings
  {
    assert role !in listings ==> SameRole(table[path], NONE_KNOWN, role);
  }

  /** Why a pair was judged, from its states. */
  lemma JudgedFromStates(s: PathStates, how: Method, follow: bool, j: PairJudgement)
    requires j in JudgePairs(s, how, follow)
    ensures j.pair.first in s.states && j.pair.second in s.states
    ensures j.judgement
            == JudgeStates(j.pair.first, s.states[j.pair.first], j.pair.second, s.states[j.pair.second], how)
    ensures j.followed.Some? ==> s.states[j.pair.first].Symlink? && s.states[j.pair.second].Symlink?
  {
    hide JudgeStates;
    var p :| p in PAIRS && JudgePair(s, p, how, follow) == Some(j);
  }

  /** One-sidedness and absence are judged from the states of the sides and from nothing else. */
  lemma AbsenceIsAState(j: PairJudgement, s: PathStates, how: Method, hashes: Hashes)
    requires j.pair.first in s.states && j.pair.second in s.states
    requires j.judgement
             == JudgeStates(j.pair.first, s.states[j.pair.first], j.pair.second, s.states[j.pair.second], how)
    requires j.followed.Some? ==> s.states[j.pair.first].Symlink? && s.states[j.pair.second].Symlink?
    requires SettlePair(j, hashes).PairSettled?
    ensures var v := SettlePair(j, hashes).pair.verdict;
            && (v == BothAbsent ==> s.states[j.pair.first] == Absent && s.states[j.pair.second] == Absent)
            && (v == OneSided(First) ==> s.states[j.pair.first] != Absent && s.states[j.pair.second] == Absent)
            && (v == OneSided(Second) ==> s.states[j.pair.first] == Absent && s.states[j.pair.second] != Absent)
  {
    SettleStops(j.judgement, j.pair, hashes);
    hide JudgeHashes, SameTime, MarkedRoles;
  }

  /** The sides that a verdict says are absent. */
  predicate SaysAbsent(v: Verdict, pair: Pair, role: Role) {
    || (v == BothAbsent && (role == pair.first || role == pair.second))
    || (v == OneSided(First) && role == pair.second)
    || (v == OneSided(Second) && role == pair.first)
  }

  /** From the listings to the settled verdict of a pair: a side is said to be absent only if its listing
      is complete and does not list the path. No such verdict rests on a truncated or cyclic listing. */
  lemma AbsenceRestsOnCompleteListings(table: Table, listings: map<Role, Listing>, outside: map<Role, seq<string>>,
                                       path: string, how: Method, follow: bool, j: PairJudgement, hashes: Hashes,
                                         role: Role)
    requires Tells(table, listings, outside) && path in table
    requires j in JudgePairs(table[path], how, follow) && SettlePair(j, hashes).PairSettled?
    requires SaysAbsent(SettlePair(j, hashes).pair.verdict, j.pair, role)
    ensures role in listings && Complete(listings[role]) && !Lists(listings[role], path)
  {
    JudgedFromStates(table[path], how, follow, j);
    AbsenceIsAState(j, table[path], how, hashes);
    hide JudgePairs, SettlePair, JudgeStates;
    assert table[path].states[role] == Absent;
    UnscannedHasNoState(table, listings, outside, path, role);
    SideIsInExactlyOne(table, listings, outside, path, role);
  }

  /** Only these pairs of sides are judged. */
  lemma OnlyThesePairs(s: PathStates, how: Method, follow: bool, j: PairJudgement)
    requires j in JudgePairs(s, how, follow)
    ensures j.pair == Pair(Left, Right) || j.pair == Pair(Left, Ref) || j.pair == Pair(Right, Ref)
  {
    hide JudgeStates;
    var p :| p in PAIRS && JudgePair(s, p, how, follow) == Some(j);
  }

  /** A pair is judged exactly when both its sides have a state. */
  lemma JudgedExactlyWhenCollected(s: PathStates, how: Method, follow: bool, pair: Pair)
    requires pair == Pair(Left, Right) || pair == Pair(Left, Ref) || pair == Pair(Right, Ref)
    ensures (exists j :: j in JudgePairs(s, how, follow) && j.pair == pair)
            <==> pair.first in s.states && pair.second in s.states
  {
    hide JudgeStates;
    assert PAIRS[0] == Pair(Left, Right) && PAIRS[1] == Pair(Left, Ref) && PAIRS[2] == Pair(Right, Ref);
    var j := JudgePair(s, pair, how, follow);
    if j.Some? {
      assert j.value in JudgePairs(s, how, follow);
    }
    if j :| j in JudgePairs(s, how, follow) && j.pair == pair {
      JudgedFromStates(s, how, follow, j);
    }
  }
}
