/** What a collector answers, what a listing holds, and the parts the scan rules are made of. */
module ScanData {
  import opened Texts
  import opened RelativePath
  import opened StartPaths
  import Sorting

  // ----- What the collector answers -----

  /** Device and inode number. */
  datatype DirId = DirId(dev: nat, ino: nat)

  datatype RawTime = ReadTime(secs: int, nanos: nat, digits: nat) | TimeUnreadable

  datatype RawKind = RawFile | RawDirectory | RawSymlink(target: Option<string>) | RawOther

  /** One collected entry; `path` is relative to the path of the question. */
  datatype RawEntry = RawEntry(path: string, kind: RawKind, size: nat, mtime: RawTime, mode: nat, id: DirId)

  /** Where a symlink leads. */
  datatype LinkTarget = ToDirectory | ToFile | ToOther | ToMissing | ToUnresolvable

  datatype ReadCause = PermissionDenied | OtherCause

  datatype Unreached = PathMissing | PathBlocked | PathUnreadable(cause: ReadCause)

  datatype Depth = Itself | All

  datatype Question = Question(path: string, depth: Depth)

  datatype UnreadableDir = UnreadableDir(path: string, cause: ReadCause)

  datatype Subtree = Subtree(start: RawEntry, entries: seq<RawEntry>, unreadable: seq<UnreadableDir>,
                             unreadableEntries: seq<UnreadableDir>, changed: seq<string>)

  datatype Reached = Entry(entry: RawEntry) | Unreachable(why: Unreached)

  datatype Answer = Answer(reached: Reached, link: Option<LinkTarget>, subtree: Option<Subtree>)

  datatype Collected = Answers(answers: seq<Answer>) | CollectFailed | RootGone

  /** Any collector: what it answers to its n-th batch of questions. */
  type Collector = (nat, seq<Question>) -> Collected

  // ----- What a listing holds -----

  datatype LinkPoint = PointsToDirectory | PointsToFile | PointsToOther | PointsToNothing | PointsNowhere

  datatype ListedKind = ListedFile | ListedDirectory | ListedSymlink(target: string, pointsTo: LinkPoint) | ListedOther

  datatype ListedEntry = ListedEntry(path: string, kind: ListedKind, size: nat, secs: int, nanos: nat, digits: nat,
                                     permissions: nat)

  datatype Listing = Listing(entries: seq<ListedEntry>, unreadableNames: seq<string>, truncated: bool,
                             cycle: Option<string>, unresolvableNames: seq<string>, counted: nat)

  datatype ScanFailure =
    | RootMissing
    | RootUnreadable(cause: ReadCause)
    | RootNotDirectory
    | RootChanged
    | StartBlocked(path: string)
    | StartUnreadable(path: string, cause: ReadCause)
    | UnreadableDirectory(path: string, cause: ReadCause)
    | UnresolvableLink(path: string)
    | UnreadableLinkTarget(path: string)
    | UnreadableTime(path: string)
    | ChangedDuringScan(path: string)
    | InconsistentAnswer
    | CollectorFailed

  /** The rules of one scan: what is excluded, which names are UTF-8, and how many entries a group may
      count. Names that are not UTF-8 are shown with the escapes of `ctx`. */
  datatype Rules = Rules(ctx: Exclusion, isUtf8: string -> bool, maxEntries: nat)

  // ----- Parts -----

  function JoinPath(base: string, rel: string): string {
    if base == "" then rel else if rel == "" then base else base + "/" + rel
  }

  /** Everything before the last "/". */
  function ParentOf(path: string): string {
    if path == "" then ""
    else if path[|path| - 1] == SLASH then path[..|path| - 1]
    else ParentOf(path[..|path| - 1])
  }

  function Changed(rules: Rules, path: string): ScanFailure {
    ChangedDuringScan(rules.ctx.escape(path))
  }

  function UnreadDirectory(rules: Rules, path: string, cause: ReadCause): ScanFailure {
    if path == "" then RootUnreadable(cause) else UnreadableDirectory(rules.ctx.escape(path), cause)
  }

  /** The entry as it is listed; None when its time could not be read. */
  function ListedOf(path: string, entry: RawEntry, kind: ListedKind): Option<ListedEntry> {
    match entry.mtime
    case ReadTime(secs, nanos, digits) =>
      Some(ListedEntry(path, kind, entry.size, secs, nanos, digits, entry.mode % 0x1000))
    case TimeUnreadable => None
  }

  /** The ids of the directories among `entries` by their paths; the last entry for a path counts, and
      the empty path stands for the start. */
  function DirIdsOf(start: DirId, entries: seq<RawEntry>): (ids: map<string, DirId>)
    ensures "" in ids
  {
    if entries == [] then map["" := start]
    else
      var ids, last := DirIdsOf(start, entries[..|entries| - 1]), entries[|entries| - 1];
      if last.kind == RawDirectory then ids[last.path := last.id] else ids
  }

  function DirIds(tree: Subtree): (ids: map<string, DirId>)
    ensures "" in ids
  {
    DirIdsOf(tree.start.id, tree.entries)
  }

  /** Why directories could not be read; the last report for a path counts. */
  function Causes(unreadable: seq<UnreadableDir>): map<string, ReadCause> {
    if unreadable == [] then map[]
    else
      var last := unreadable[|unreadable| - 1];
      Causes(unreadable[..|unreadable| - 1])[last.path := last.cause]
  }

  /** The ids of the directories above `path`, from the start on, that end before character n. */
  function ParentIdsUpTo(path: string, ids: map<string, DirId>, n: nat): seq<DirId>
    requires "" in ids && n <= |path|
  {
    if n == 0 then [ids[""]]
    else
      ParentIdsUpTo(path, ids, n - 1)
      + (if path[n - 1] == SLASH && path[..n - 1] in ids then [ids[path[..n - 1]]] else [])
  }

  method ParentIds(path: string, ids: map<string, DirId>) returns (parents: seq<DirId>)
    requires "" in ids
    ensures parents == ParentIdsUpTo(path, ids, |path|)
  {
    parents := [ids[""]];
    for end := 0 to |path|
      invariant parents == ParentIdsUpTo(path, ids, end)
    {
      if path[end] == SLASH && path[..end] in ids {
        parents := parents + [ids[path[..end]]];
      }
    }
  }

  // ----- The order a subtree is taken in -----

  datatype Item =
    | EntryItem(entry: RawEntry)
    | UnreadItem(path: string, cause: ReadCause)
    | ChangedItem(path: string)
  {
    function Rel(): string {
      if EntryItem? then entry.path else path
    }
  }

  /** By path; on one path what changed comes first. */
  predicate ItemBefore(a: Item, b: Item) {
    if a.Rel() != b.Rel() then LexLe(a.Rel(), b.Rel()) else a.ChangedItem? || !b.ChangedItem?
  }

  lemma ItemsAreOrdered()
    ensures Sorting.IsOrder(ItemBefore)
  {
    forall a, b ensures ItemBefore(a, b) || ItemBefore(b, a) {
      LexTotal(a.Rel(), b.Rel());
    }
    forall a, b, c | ItemBefore(a, b) && ItemBefore(b, c) ensures ItemBefore(a, c) {
      ItemOrderIsTransitive(a, b, c);
    }
  }

  lemma ItemOrderIsTransitive(a: Item, b: Item, c: Item)
    requires ItemBefore(a, b) && ItemBefore(b, c)
    ensures ItemBefore(a, c)
  {
    if a.Rel() != b.Rel() && b.Rel() != c.Rel() {
      LexTransitive(a.Rel(), b.Rel(), c.Rel());
      if a.Rel() == c.Rel() {
        LexAntisymmetric(a.Rel(), b.Rel());
      }
    }
  }

  function EntryItems(entries: seq<RawEntry>): (items: seq<Item>)
    ensures |items| == |entries| && forall i :: 0 <= i < |items| ==> items[i] == EntryItem(entries[i])
  {
    seq(|entries|, i requires 0 <= i < |entries| => EntryItem(entries[i]))
  }

  function UnreadItems(dirs: seq<UnreadableDir>): (items: seq<Item>)
    ensures |items| == |dirs| && forall i :: 0 <= i < |items| ==> items[i] == UnreadItem(dirs[i].path, dirs[i].cause)
  {
    seq(|dirs|, i requires 0 <= i < |dirs| => UnreadItem(dirs[i].path, dirs[i].cause))
  }

  function ChangedItems(paths: seq<string>): (items: seq<Item>)
    ensures |items| == |paths| && forall i :: 0 <= i < |items| ==> items[i] == ChangedItem(paths[i])
  {
    seq(|paths|, i requires 0 <= i < |paths| => ChangedItem(paths[i]))
  }

  function AllItems(tree: Subtree): seq<Item> {
    EntryItems(tree.entries) + UnreadItems(tree.unreadableEntries) + ChangedItems(tree.changed)
  }

  function InPathOrder(tree: Subtree): seq<Item> {
    Sorting.Sorted(AllItems(tree), ItemBefore)
  }

  // ----- Links that wait -----

  /** Where a waiting symlink stands in the listing. */
  datatype Listed = At(index: nat) | NameUnreadable | NotListed

  datatype PendingLink = PendingLink(path: string, ancestors: seq<DirId>, counter: nat, listed: Listed)
}
