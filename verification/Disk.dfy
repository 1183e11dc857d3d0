/** The file system below root_dir, as one operation after another sees it. Others may change it
    between any two operations. */
module Disk {
  import opened Texts

  /** The elements of a path below root_dir; [] is root_dir. */
  type Path = seq<string>

  datatype Node = DirNode | LinkToDir | OtherNode

  type Nodes = map<Path, Node>

  datatype IoError = NoEntry | NotDir | Denied | Exists | OtherError

  /** What cannot be searched, what cannot be changed, when making something fails for another reason,
      and what others do before the n-th operation. */
  datatype Terms = Terms(closed: Path -> bool, readOnly: Path -> bool, full: nat -> bool,
                         interfere: (nat, Nodes) -> Nodes)

  /** Nobody else changes anything. */
  ghost predicate Quiet(terms: Terms) {
    forall n, nodes {:trigger terms.interfere(n, nodes)} :: terms.interfere(n, nodes) == nodes
  }

  function Up(p: Path): Path
    requires p != []
  {
    p[..|p| - 1]
  }

  /** Every directory above `p` can be searched. */
  predicate Reachable(terms: Terms, p: Path) {
    forall k :: 0 <= k < |p| ==> !terms.closed(p[..k])
  }

  predicate IsDirNode(nodes: Nodes, p: Path) {
    p in nodes && nodes[p] != OtherNode
  }

  /** What lies below a directory. */
  predicate HasChild(nodes: Nodes, p: Path) {
    exists q :: q in nodes && q != [] && Up(q) == p
  }

  /** Everything lies in a directory. */
  ghost predicate TreeShaped(nodes: Nodes) {
    forall p :: p in nodes && p != [] ==> IsDirNode(nodes, Up(p))
  }

  predicate Seen(terms: Terms, nodes: Nodes, p: Path) {
    Reachable(terms, p) && p in nodes
  }

  /** Why something cannot be made at `p`. */
  function MakeError(terms: Terms, nodes: Nodes, p: Path, full: bool): Option<IoError>
    requires p != []
  {
    if !Reachable(terms, p) then Some(Denied)
    else if Up(p) !in nodes then Some(NoEntry)
    else if nodes[Up(p)] == OtherNode then Some(NotDir)
    else if p in nodes then Some(Exists)
    else if terms.readOnly(Up(p)) then Some(Denied)
    else if full then Some(OtherError)
    else None
  }

  function RemoveError(terms: Terms, nodes: Nodes, p: Path): Option<IoError>
    requires p != []
  {
    if !Reachable(terms, p) then Some(Denied)
    else if p !in nodes then Some(NoEntry)
    else if nodes[p] != DirNode then Some(NotDir)
    else if HasChild(nodes, p) then Some(OtherError)
    else if terms.readOnly(Up(p)) then Some(Denied)
    else None
  }

  /** Opening what exists for writing, without following a symlink. */
  function OpenError(terms: Terms, nodes: Nodes, p: Path, full: bool): Option<IoError> {
    if !Reachable(terms, p) then Some(Denied)
    else if p !in nodes then Some(NoEntry)
    else if nodes[p] != OtherNode || full then Some(OtherError)
    else None
  }

  /** What a run of operations did: directories and files it made, and directories it tried to remove. */
  datatype Change = Made(dir: Path) | Tried(dir: Path) | Created(file: Path)

  class Disk {
    const terms: Terms
    var nodes: Nodes
    var tick: nat
    ghost var log: seq<Change>

    /** The nodes the next operation finds. */
    ghost function Next(): Nodes
      reads this
    {
      terms.interfere(tick, nodes)
    }

    constructor (terms: Terms, nodes: Nodes)
      ensures this.terms == terms && this.nodes == nodes && tick == 0 && log == []
    {
      this.terms, this.nodes, tick, log := terms, nodes, 0, [];
    }

    method Settle()
      modifies this
      ensures nodes == old(Next()) && tick == old(tick) + 1 && log == old(log)
    {
      nodes := terms.interfere(tick, nodes);
      tick := tick + 1;
    }

    method Lstat(p: Path) returns (seen: bool)
      modifies this
      ensures nodes == old(Next()) && tick == old(tick) + 1 && log == old(log)
      ensures seen == Seen(terms, nodes, p)
    {
      Settle();
      seen := Seen(terms, nodes, p);
    }

    method IsDir(p: Path) returns (dir: bool)
      modifies this
      ensures nodes == old(Next()) && tick == old(tick) + 1 && log == old(log)
      ensures dir == (Reachable(terms, p) && IsDirNode(nodes, p))
    {
      Settle();
      dir := Reachable(terms, p) && IsDirNode(nodes, p);
    }

    method Mkdir(p: Path) returns (error: Option<IoError>)
      requires p != []
      modifies this
      ensures error == MakeError(terms, old(Next()), p, terms.full(old(tick)))
      ensures nodes == if error == None then old(Next())[p := DirNode] else old(Next())
      ensures tick == old(tick) + 1 && log == if error == None then old(log) + [Made(p)] else old(log)
    {
      error := MakeError(terms, terms.interfere(tick, nodes), p, terms.full(tick));
      Settle();
      if error == None {
        nodes := nodes[p := DirNode];
        log := log + [Made(p)];
      }
    }

    method Rmdir(p: Path) returns (error: Option<IoError>)
      requires p != []
      modifies this
      ensures error == RemoveError(terms, old(Next()), p)
      ensures nodes == if error == None then old(Next()) - {p} else old(Next())
      ensures tick == old(tick) + 1 && log == old(log) + [Tried(p)]
    {
      Settle();
      error := RemoveError(terms, nodes, p);
      if error == None {
        nodes := nodes - {p};
      }
      log := log + [Tried(p)];
    }

    method OpenExisting(p: Path) returns (error: Option<IoError>)
      modifies this
      ensures error == OpenError(terms, old(Next()), p, terms.full(old(tick)))
      ensures nodes == old(Next()) && tick == old(tick) + 1 && log == old(log)
    {
      error := OpenError(terms, terms.interfere(tick, nodes), p, terms.full(tick));
      Settle();
    }

    /** Makes a new file; whatever is already there is an error. */
    method OpenNew(p: Path) returns (error: Option<IoError>)
      requires p != []
      modifies this
      ensures error == MakeError(terms, old(Next()), p, terms.full(old(tick)))
      ensures nodes == if error == None then old(Next())[p := OtherNode] else old(Next())
      ensures tick == old(tick) + 1 && log == if error == None then old(log) + [Created(p)] else old(log)
    {
      error := MakeError(terms, terms.interfere(tick, nodes), p, terms.full(tick));
      Settle();
      if error == None {
        nodes := nodes[p := OtherNode];
        log := log + [Created(p)];
      }
    }
  }
}
