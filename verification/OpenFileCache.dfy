/**
  The open-file cache of nginx: entries are found by name in a tree, aged in an
  LRU queue, counted by the cleanups that requests still hold, and detached
  ("close later") when they change or expire while in use.

  The tree is a map from names to entries; module FileTree proves that the red-black
  tree is one.  Each call is told what the operating system would say to stat() and
  to open().
 */
module OpenFileCache {

  /** The address of a cached entry. */
  type FileId = int

  type Fd = int

  const INVALID_FILE: Fd := -1

  /** The fields of ngx_cached_open_file_t that the cache reads. */
  datatype File = File(name: string, fd: Fd, err: int, isDir: bool, uniq: int, count: int, close: bool,
                       uses: int, created: int, accessed: int)

  /** A cached open file, as opposed to a cached directory or a cached error. */
  ghost predicate IsFile(e: File) {
    e.err == 0 && !e.isDir
  }

  /** What a request asks for; `samePolicy` says that its symlink policy is the one the entry was opened with. */
  datatype Request = Request(name: string, uniq: int, valid: int, minUses: int, errors: bool, samePolicy: bool,
                             testDir: bool)

  /** What stat() and fstat() say: an error, or the inode number and whether it is a directory. */
  datatype Stat = StatError(err: int) | Stat(uniq: int, isDir: bool)

  /** What open() says: an error, or a new descriptor and what fstat() says of it. */
  datatype Open = OpenError(err: int) | Open(fd: Fd, stat: Stat)

  /** What the operating system would say to stat() and open() for the name. */
  datatype System = System(stat: Stat, open: Open)

  /** What ngx_open_and_stat_file leaves behind. */
  datatype Answer =
    | Failed(err: int)              // no descriptor; `err` is 0 when only the fstat failed
    | Unchanged                     // the inode number of the descriptor passed in: it is kept
    | SameDirectory                 // the same on a directory: the descriptor is kept all the same
    | Opened(fd: Fd, uniq: int)     // a new descriptor for a file
    | Directory(uniq: int)          // a directory, and no descriptor

  /** ngx_open_and_stat_file, for a descriptor and an inode number that may be known already. */
  function OpenAndStat(fd: Fd, uniq: int, testDir: bool, os: System): (ans: Answer)
    ensures ans.Unchanged? || ans.SameDirectory? ==> fd != INVALID_FILE
  {
    if fd != INVALID_FILE && os.stat.StatError? then Failed(os.stat.err)
    else if fd != INVALID_FILE && os.stat.uniq == uniq then (if os.stat.isDir then SameDirectory else Unchanged)
    else if fd == INVALID_FILE && testDir && os.stat.StatError? then Failed(os.stat.err)
    else if fd == INVALID_FILE && testDir && os.stat.isDir then Directory(os.stat.uniq)
    else
      match os.open
      case OpenError(err) => Failed(err)
      case Open(_, StatError(_)) => Failed(0)
      case Open(d, Stat(u, isDir)) => if isDir then Directory(u) else Opened(d, u)
  }

  /** What a request asks ngx_open_and_stat_file, when `e` is the entry with the name, if there is one. */
  function Asked(known: bool, e: File, req: Request, os: System): (ans: Answer)
    ensures ans.Unchanged? || ans.SameDirectory? ==> known && e.fd != INVALID_FILE
    ensures ans.Opened? ==> os.open.Open? && ans.fd == os.open.fd
  {
    OpenAndStat(if known then e.fd else INVALID_FILE, if known then e.uniq else 0,
                (known && e.isDir) || req.testDir, os)
  }

  /** What ngx_open_cached_file leaves in the request's ngx_open_file_info_t; `fd` counts only if ok. */
  datatype Info = Info(ok: bool, fd: Fd, isDir: bool, err: int)

  // ----- sequences without repetition, as the queue is

  ghost predicate Distinct(s: seq<FileId>) {
    s != [] ==> s[0] !in s[1..] && Distinct(s[1..])
  }

  function Without(s: seq<FileId>, f: FileId): (r: seq<FileId>)
    ensures forall g :: g in r <==> g in s && g != f
    ensures Distinct(s) ==> Distinct(r) && |r| == if f in s then |s| - 1 else |s|
  {
    if s == [] then []
    else if s[0] == f then Without(s[1..], f)
    else
      var r := Without(s[1..], f);
      assert ([s[0]] + r)[1..] == r;
      [s[0]] + r
  }

  lemma {:induction false} WithoutAbsent(s: seq<FileId>, f: FileId)
    requires f !in s
    ensures Without(s, f) == s
  {
    if s != [] {
      WithoutAbsent(s[1..], f);
      assert [s[0]] + s[1..] == s;
    }
  }

  lemma WithoutHead(f: FileId, s: seq<FileId>)
    requires f !in s
    ensures Without([f] + s, f) == s
  {
    assert ([f] + s)[1..] == s;
    WithoutAbsent(s, f);
  }

  // ----- the invariant

  ghost predicate EntryOk(e: File, linked: bool, count: int) {
    && e.count == count && e.uses >= 1
    && (!IsFile(e) ==> count == 0 && e.fd == INVALID_FILE)
    && (count > 0 ==> e.fd != INVALID_FILE)
    && (linked && IsFile(e) ==> !e.close)
    && (!linked ==> e.close && count > 0)
  }

  /** Every entry has as many outstanding cleanups as its count says. */
  ghost predicate EntriesOk(files: map<FileId, File>, linked: seq<FileId>, cleanups: multiset<FileId>) {
    && (forall f :: f in files ==> EntryOk(files[f], f in linked, cleanups[f]))
    && (forall f :: f in cleanups ==> f in files)
  }

  /** `owner` gives the one entry that owns each open descriptor. */
  ghost predicate OwnersOk(files: map<FileId, File>, owner: map<Fd, FileId>) {
    && (forall f :: f in files && files[f].fd != INVALID_FILE ==> files[f].fd in owner && owner[files[f].fd] == f)
    && (forall d :: d in owner ==> owner[d] in files && files[owner[d]].fd == d != INVALID_FILE)
  }

  /** Tree and queue hold the same entries. */
  ghost predicate IndexOk(files: map<FileId, File>, tree: map<string, FileId>, linked: seq<FileId>) {
    && Distinct(linked)
    && (forall f :: f in linked ==> f in files && files[f].name in tree && tree[files[f].name] == f)
    && (forall n :: n in tree ==> tree[n] in linked && tree[n] in files && files[tree[n]].name == n)
  }

  /** The invariant of the cache; taken as one fact, for short proofs. */
  ghost predicate Consistent(files: map<FileId, File>, tree: map<string, FileId>, linked: seq<FileId>,
                             owner: map<Fd, FileId>, cleanups: multiset<FileId>) {
    AllOk(files, tree, linked, owner, cleanups) == true
  }

  ghost predicate AllOk(files: map<FileId, File>, tree: map<string, FileId>, linked: seq<FileId>,
                        owner: map<Fd, FileId>, cleanups: multiset<FileId>) {
    EntriesOk(files, linked, cleanups) && OwnersOk(files, owner) && IndexOk(files, tree, linked)
  }

  function NotOwned(owner: map<Fd, FileId>, fd: Fd): map<Fd, FileId> {
    if fd == INVALID_FILE then owner else owner - {fd}
  }

  /** A cached answer that may still be used: no descriptor events are in use here. */
  predicate Fresh(e: File, req: Request, now: int) {
    (req.uniq == 0 || req.uniq == e.uniq) && now - e.created < req.valid && req.samePolicy
  }

  /** A file entry that has been closed because it was not used often enough. */
  predicate Idle(e: File) {
    e.fd == INVALID_FILE && e.err == 0 && !e.isDir
  }

  /** The cached answer can be given again without asking the operating system. */
  predicate Usable(e: File, req: Request, now: int) {
    !Idle(e) && Fresh(e, req, now)
  }

  /** The answer makes ngx_open_cached_file give up: there is no error to cache, or errors are not cached. */
  predicate GivesUp(req: Request, ans: Answer) {
    ans.Failed? && (ans.err == 0 || !req.errors)
  }

  /**
    stat() saw another inode and open() then found the cached one again: the entry
    takes the new descriptor although it holds one already.
   */
  predicate Race(e: File, req: Request, now: int, ans: Answer) {
    e.fd != INVALID_FILE && !Fresh(e, req, now) && SameFile(e, ans)
  }

  /**
    stat() finds the inode number of the descriptor on a directory, perhaps of another
    file system: the descriptor is closed or left to its users, and stored once more.
   */
  predicate Confused(e: File, req: Request, now: int, ans: Answer) {
    !Fresh(e, req, now) && ans.SameDirectory?
  }

  /** A new descriptor for the inode number of the entry. */
  predicate SameFile(e: File, ans: Answer) {
    ans.Opened? && ans.uniq == e.uniq
  }

  /** What a request gets from an answer of the operating system; `fd` is the descriptor of an unchanged file. */
  function Given(ans: Answer, fd: Fd): Info {
    match ans
    case Opened(d, _) => Info(true, d, false, 0)
    case Unchanged => Info(true, fd, false, 0)
    case SameDirectory => Info(true, fd, true, 0)
    case Directory(_) => Info(true, INVALID_FILE, true, 0)
    case Failed(err) => Info(false, INVALID_FILE, false, err)
  }

  /** What a request gets from a cached answer. */
  function Cached(e: File): Info {
    if e.err == 0 then Info(true, e.fd, e.isDir, 0) else Info(false, INVALID_FILE, false, e.err)
  }

  /** The file behind an entry that is in use has changed: a new entry is needed. */
  predicate Outdated(e: File, ans: Answer) {
    e.fd != INVALID_FILE && e.count > 0 && !ans.Unchanged? && !SameFile(e, ans)
  }

  /** The answer is stored in an entry. */
  predicate Stores(e: File, req: Request, ans: Answer, gotMemory: bool) {
    !GivesUp(req, ans) && (gotMemory || !Outdated(e, ans))
  }

  /** What ngx_open_cached_file answers, when `e` is the entry with the name, if there is one. */
  function Reply(known: bool, e: File, req: Request, ans: Answer, gotMemory: bool, now: int): Info {
    if known && Usable(e, req, now) then Cached(e)
    else if GivesUp(req, ans) then Info(false, INVALID_FILE, false, ans.err)
    else if (!known || Outdated(e, ans)) && !gotMemory then Info(false, INVALID_FILE, false, 0)
    else Given(ans, e.fd)
  }

  /** No entry is new but `id`, and no descriptor but the one of the answer. */
  ghost predicate NothingElse(files0: map<FileId, File>, files: map<FileId, File>, id: FileId,
                              owner0: map<Fd, FileId>, owner: map<Fd, FileId>, ans: Answer) {
    && (forall f :: f in files ==> f in files0 || f == id)
    && (forall d :: d in owner ==> d in owner0 || (ans.Opened? && d == ans.fd))
  }

  /** The entry, which was `e0` if it is not new, holds the answer from now on. */
  ghost predicate Describes(e: File, e0: File, ans: Answer, now: int) {
    && e.created == now && e.accessed == now
    && match ans
       case Opened(fd, uniq) => e.fd == fd && e.uniq == uniq && e.err == 0 && !e.isDir
       case Unchanged => e.fd == e0.fd && e.uniq == e0.uniq && e.err == 0 && !e.isDir
       case SameDirectory => e.fd == e0.fd && e.uniq == e0.uniq && e.err == 0 && e.isDir
       case Directory(uniq) => e.fd == INVALID_FILE && e.uniq == uniq && e.err == 0 && e.isDir
       case Failed(err) => e.fd == INVALID_FILE && e.err == err
  }

  /** Every entry but one is as before. */
  ghost predicate Others(files0: map<FileId, File>, files: map<FileId, File>, except: FileId) {
    SameBut(files0, files, except) == true
  }

  ghost predicate SameBut(files0: map<FileId, File>, files: map<FileId, File>, except: FileId) {
    forall f :: f in files0 && f != except ==> f in files && files[f] == files0[f]
  }

  /** The reply repeats the entry. */
  ghost predicate Tells(info: Info, e: File) {
    if e.err != 0 then !info.ok && info.err == e.err
    else info.ok && info.isDir == e.isDir && info.fd == e.fd && info.err == 0
  }

  ghost predicate SameAnswer(e: File, e0: File) {
    e.fd == e0.fd && e.err == e0.err && e.isDir == e0.isDir && e.uniq == e0.uniq && e.created == e0.created
  }

  /**
    What is told and what is kept, in terms of the fields.  A valid entry is told and
    stays as it is; otherwise the answer of the operating system is kept in the entry
    with the name and told, unless errors are not cached or memory is short.
   */
  ghost predicate Told(files: map<FileId, File>, tree: map<string, FileId>, req: Request, known: bool, e: File,
                       ans: Answer, gotMemory: bool, now: int, info: Info)
  {
    var valid := known && !(e.fd == INVALID_FILE && e.err == 0 && !e.isDir)
      && (req.uniq == 0 || req.uniq == e.uniq) && now - e.created < req.valid && req.samePolicy;
    var reused := known && (e.fd == INVALID_FILE || e.count == 0 || ans.Unchanged? || SameFile(e, ans));
    var kept := !(ans.Failed? && (ans.err == 0 || !req.errors)) && (gotMemory || reused);
    if valid then
      && req.name in tree && tree[req.name] in files && Tells(info, files[tree[req.name]])
      && SameAnswer(files[tree[req.name]], e) && files[tree[req.name]].accessed == now
    else if kept then
      && req.name in tree && tree[req.name] in files && Tells(info, files[tree[req.name]])
      && Describes(files[tree[req.name]], e, ans, now)
    else
      !info.ok
  }

  lemma ToldHit(files: map<FileId, File>, tree: map<string, FileId>, req: Request, e: File,
                ans: Answer, gotMemory: bool, now: int, info: Info)
    requires Usable(e, req, now) && info == Cached(e) && req.name in tree && tree[req.name] in files
    requires SameAnswer(files[tree[req.name]], e) && files[tree[req.name]].accessed == now
    ensures Told(files, tree, req, true, e, ans, gotMemory, now, info)
  {
  }

  lemma ToldMiss(files: map<FileId, File>, tree: map<string, FileId>, req: Request, known: bool, e: File,
                 ans: Answer, gotMemory: bool, now: int, info: Info)
    requires !(known && Usable(e, req, now)) && info == Reply(known, e, req, ans, gotMemory, now)
    requires known ==> e.count >= 0 && (e.fd == INVALID_FILE ==> !ans.Unchanged? && !ans.SameDirectory?)
    requires !known ==> !ans.Unchanged? && !ans.SameDirectory?
    requires !GivesUp(req, ans) && (gotMemory || (known && !Outdated(e, ans))) ==>
      req.name in tree && tree[req.name] in files && Describes(files[tree[req.name]], e, ans, now)
    ensures Told(files, tree, req, known, e, ans, gotMemory, now, info)
  {
  }

  ghost predicate Apart(owner: map<Fd, FileId>, others: set<Fd>) {
    forall d :: d in others ==> d !in owner
  }

  lemma ApartShrink(owner: map<Fd, FileId>, owner': map<Fd, FileId>, others: set<Fd>)
    requires Apart(owner, others) && owner'.Keys <= owner.Keys
    ensures Apart(owner', others)
  {
  }

  /** Tree, queue and `current` have the same size. */
  lemma {:induction false} SameSize(files: map<FileId, File>, tree: map<string, FileId>, linked: seq<FileId>)
    requires IndexOk(files, tree, linked)
    ensures |tree| == |linked|
    decreases |linked|
  {
    if linked == [] {
      assert tree.Keys == {};
    } else {
      var f := linked[0];
      var name := files[f].name;
      var tree' := tree - {name};
      assert linked == [f] + linked[1..];
      forall n | n in tree'
        ensures tree'[n] in linked[1..]
      {
        var g: FileId := tree[n];
        assert g in linked && g != f;
      }
      SameSize(files, tree', linked[1..]);
      assert tree.Keys == tree'.Keys + {name};
    }
  }

  // ----- what each kind of change keeps

  /** An entry without cleanups leaves, with its descriptor. */
  lemma Freed(files: map<FileId, File>, tree: map<string, FileId>, linked: seq<FileId>,
              owner: map<Fd, FileId>, cleanups: multiset<FileId>, f: FileId)
    requires Consistent(files, tree, linked, owner, cleanups) && f in files && files[f].count == 0
    ensures Consistent(files - {f}, tree - {files[f].name}, Without(linked, f), NotOwned(owner, files[f].fd), cleanups)
  {
    var files', linked', owner' := files - {f}, Without(linked, f), NotOwned(owner, files[f].fd);
    assert f in linked;
    assert EntriesOk(files', linked', cleanups);
    assert OwnersOk(files', owner');
    assert IndexOk(files', tree - {files[f].name}, linked');
  }

  /** An entry with cleanups leaves tree and queue and is marked to be closed later. */
  lemma Detached(files: map<FileId, File>, tree: map<string, FileId>, linked: seq<FileId>,
                 owner: map<Fd, FileId>, cleanups: multiset<FileId>, f: FileId)
    requires Consistent(files, tree, linked, owner, cleanups) && f in linked && files[f].count > 0
    ensures Consistent(files[f := files[f].(close := true)], tree - {files[f].name}, Without(linked, f),
                       owner, cleanups)
  {
    var files', linked' := files[f := files[f].(close := true)], Without(linked, f);
    assert EntriesOk(files', linked', cleanups);
    assert OwnersOk(files', owner);
    assert IndexOk(files', tree - {files[f].name}, linked');
  }

  /** An entry in the queue gives up its descriptor, if it has one; nobody uses it. */
  lemma Emptied(files: map<FileId, File>, tree: map<string, FileId>, linked: seq<FileId>,
                owner: map<Fd, FileId>, cleanups: multiset<FileId>, f: FileId)
    requires Consistent(files, tree, linked, owner, cleanups) && f in files && files[f].count == 0
    ensures Consistent(files[f := files[f].(fd := INVALID_FILE)], tree, linked, NotOwned(owner, files[f].fd), cleanups)
  {
    var files', owner' := files[f := files[f].(fd := INVALID_FILE)], NotOwned(owner, files[f].fd);
    assert EntriesOk(files', linked, cleanups);
    assert OwnersOk(files', owner');
    assert IndexOk(files', tree, linked);
  }

  /** A new descriptor, directory or error is stored in an entry that holds no descriptor. */
  lemma Stored(files: map<FileId, File>, tree: map<string, FileId>, linked: seq<FileId>,
               owner: map<Fd, FileId>, cleanups: multiset<FileId>, f: FileId, e: File)
    requires Consistent(files, tree, linked, owner, cleanups) && f in linked && f in files
    requires files[f].fd == INVALID_FILE
    requires e.name == files[f].name && e.count == 0 && e.uses == files[f].uses && (IsFile(e) ==> !e.close)
    requires e.fd != INVALID_FILE ==> IsFile(e) && e.fd !in owner
    ensures Consistent(files[f := e], tree, linked, if e.fd == INVALID_FILE then owner else owner[e.fd := f], cleanups)
  {
    var files', owner' := files[f := e], if e.fd == INVALID_FILE then owner else owner[e.fd := f];
    assert EntriesOk(files', linked, cleanups);
    assert OwnersOk(files', owner');
    assert IndexOk(files', tree, linked);
  }

  /** A cleanup is handed out, or given back, for an entry with a descriptor. */
  lemma Counted(files: map<FileId, File>, tree: map<string, FileId>, linked: seq<FileId>,
                owner: map<Fd, FileId>, cleanups: multiset<FileId>, f: FileId, n: int)
    requires Consistent(files, tree, linked, owner, cleanups) && f in files && files[f].fd != INVALID_FILE && n >= 0
    requires f !in linked ==> n > 0
    ensures Consistent(files[f := files[f].(count := n)], tree, linked, owner, cleanups[f := n])
  {
    var files' := files[f := files[f].(count := n)];
    assert EntriesOk(files', linked, cleanups[f := n]);
    assert OwnersOk(files', owner);
    assert IndexOk(files', tree, linked);
  }

  /** A second descriptor replaces the one an entry holds: the first stays open and nobody owns it. */
  lemma Replaced(files: map<FileId, File>, tree: map<string, FileId>, linked: seq<FileId>,
                 owner: map<Fd, FileId>, cleanups: multiset<FileId>, f: FileId, fd: Fd)
    requires Consistent(files, tree, linked, owner, cleanups) && f in files && files[f].fd != INVALID_FILE
    requires fd != INVALID_FILE && fd !in owner
    ensures Consistent(files[f := files[f].(fd := fd)], tree, linked, (owner - {files[f].fd})[fd := f], cleanups)
  {
    var files', owner' := files[f := files[f].(fd := fd)], (owner - {files[f].fd})[fd := f];
    assert EntriesOk(files', linked, cleanups);
    assert OwnersOk(files', owner');
    assert IndexOk(files', tree, linked);
  }

  /** A directory that holds a descriptor, or an entry whose descriptor is closed, is not consistent. */
  lemma Broken(files: map<FileId, File>, tree: map<string, FileId>, linked: seq<FileId>,
               owner: map<Fd, FileId>, cleanups: multiset<FileId>, f: FileId)
    requires f in files && files[f].fd != INVALID_FILE && (files[f].isDir || files[f].fd !in owner)
    ensures !Consistent(files, tree, linked, owner, cleanups)
  {
    assert !EntryOk(files[f], f in linked, cleanups[f]) || !OwnersOk(files, owner);
    assert !AllOk(files, tree, linked, owner, cleanups);
  }

  /** Counts are the numbers of cleanups, and the tree knows linked entries. */
  lemma Linked(files: map<FileId, File>, tree: map<string, FileId>, linked: seq<FileId>,
                   owner: map<Fd, FileId>, cleanups: multiset<FileId>, f: FileId)
    requires Consistent(files, tree, linked, owner, cleanups) && f in files && f in linked
    ensures files[f].count == cleanups[f] && files[f].name in tree && tree[files[f].name] == f
    ensures files[f].fd != INVALID_FILE ==> files[f].fd in owner && IsFile(files[f])
  {
    assert EntryOk(files[f], f in linked, cleanups[f]);
  }

  lemma Owned(files: map<FileId, File>, tree: map<string, FileId>, linked: seq<FileId>,
              owner: map<Fd, FileId>, cleanups: multiset<FileId>, f: FileId)
    requires Consistent(files, tree, linked, owner, cleanups) && f in files && files[f].fd != INVALID_FILE
    ensures files[f].fd in owner
  {
  }

  lemma NotNegative(files: map<FileId, File>, linked: seq<FileId>, cleanups: multiset<FileId>, f: FileId)
    requires EntriesOk(files, linked, cleanups) && f in files
    ensures files[f].count >= 0
  {
    assert EntryOk(files[f], f in linked, cleanups[f]);
  }

  lemma NotQueued(files: map<FileId, File>, tree: map<string, FileId>, linked: seq<FileId>, f: FileId)
    requires IndexOk(files, tree, linked) && f !in files
    ensures f !in linked
  {
  }

  /** A new entry enters tree and queue. */
  lemma Created(files: map<FileId, File>, tree: map<string, FileId>, linked: seq<FileId>,
                owner: map<Fd, FileId>, cleanups: multiset<FileId>, f: FileId, e: File)
    requires Consistent(files, tree, linked, owner, cleanups) && f !in files && e.name !in tree
    requires e.count == 0 && e.uses >= 1 && e.fd == INVALID_FILE && (IsFile(e) ==> !e.close)
    ensures Consistent(files[f := e], tree[e.name := f], [f] + linked, owner, cleanups)
  {
    var files', tree', linked' := files[f := e], tree[e.name := f], [f] + linked;
    assert linked'[1..] == linked && f !in linked;
    assert EntriesOk(files', linked', cleanups);
    assert OwnersOk(files', owner);
    assert IndexOk(files', tree', linked');
  }

  /** Times, uses and inode numbers do not matter. */
  lemma Touched(files: map<FileId, File>, tree: map<string, FileId>, linked: seq<FileId>,
                owner: map<Fd, FileId>, cleanups: multiset<FileId>, f: FileId, e: File)
    requires Consistent(files, tree, linked, owner, cleanups) && f in files
    requires e.uses >= files[f].uses
    requires e == files[f].(uses := e.uses, created := e.created, accessed := e.accessed, uniq := e.uniq)
    ensures Consistent(files[f := e], tree, linked, owner, cleanups)
  {
    var files' := files[f := e];
    assert EntriesOk(files', linked, cleanups);
    assert OwnersOk(files', owner);
    assert IndexOk(files', tree, linked);
  }

  /** Neither does the order of the queue. */
  lemma Reordered(files: map<FileId, File>, tree: map<string, FileId>, linked: seq<FileId>, linked': seq<FileId>,
                  owner: map<Fd, FileId>, cleanups: multiset<FileId>)
    requires Consistent(files, tree, linked, owner, cleanups)
    requires Distinct(linked') && (forall g :: g in linked' ==> g in linked)
    requires forall g :: g in linked ==> g in linked'
    ensures Consistent(files, tree, linked', owner, cleanups)
  {
    forall n | n in tree
      ensures tree[n] in linked'
    {
      var f: FileId := tree[n];
      assert f in linked;
    }
  }

  lemma Twice(files: map<FileId, File>, f: FileId, a: File, b: File)
    ensures files[f := a][f := b] == files[f := b]
  {
  }

  lemma MovedToHead(files: map<FileId, File>, tree: map<string, FileId>, linked: seq<FileId>,
                    owner: map<Fd, FileId>, cleanups: multiset<FileId>, f: FileId)
    requires Consistent(files, tree, linked, owner, cleanups) && f in linked
    ensures Consistent(files, tree, [f] + Without(linked, f), owner, cleanups)
  {
    var linked' := [f] + Without(linked, f);
    assert linked'[1..] == Without(linked, f);
    Reordered(files, tree, linked, linked', owner, cleanups);
  }

  /** A cleanup of an entry in the queue is given back: the entry moves to the head and may be emptied. */
  lemma Released(files: map<FileId, File>, tree: map<string, FileId>, linked: seq<FileId>,
                 owner: map<Fd, FileId>, cleanups: multiset<FileId>, f: FileId, keep: bool, now: int)
    requires Consistent(files, tree, linked, owner, cleanups) && f in linked && f in cleanups
    requires files[f].count > 1 ==> keep
    ensures var e := files[f];
      var e' := e.(count := e.count - 1, accessed := now, fd := if keep then e.fd else INVALID_FILE);
      Consistent(files[f := e'], tree, [f] + Without(linked, f), if keep then owner else owner - {e.fd},
                 cleanups - multiset{f})
  {
    var e, n := files[f], files[f].count - 1;
    var e1 := e.(count := n, accessed := now);
    var linked', cleanups' := [f] + Without(linked, f), cleanups[f := n];
    assert cleanups - multiset{f} == cleanups';
    MovedToHead(files, tree, linked, owner, cleanups, f);
    Counted(files, tree, linked', owner, cleanups, f, n);
    Touched(files[f := e.(count := n)], tree, linked', owner, cleanups', f, e1);
    Twice(files, f, e.(count := n), e1);
    if !keep {
      Emptied(files[f := e1], tree, linked', owner, cleanups', f);
      Twice(files, f, e1, e1.(fd := INVALID_FILE));
    }
  }

  /** An entry that is linked and in use is an open file. */
  lemma LinkedInUse(files: map<FileId, File>, tree: map<string, FileId>, linked: seq<FileId>,
                    owner: map<Fd, FileId>, cleanups: multiset<FileId>, f: FileId)
    requires Consistent(files, tree, linked, owner, cleanups) && f in linked && f in cleanups
    ensures f in files && files[f].count > 0 && files[f].fd != INVALID_FILE && !files[f].close && files[f].fd in owner
  {
    assert EntryOk(files[f], f in linked, cleanups[f]);
  }

  /** The last cleanup of a detached entry is given back: the entry goes, with its descriptor. */
  lemma Reaped(files: map<FileId, File>, tree: map<string, FileId>, linked: seq<FileId>,
               owner: map<Fd, FileId>, cleanups: multiset<FileId>, f: FileId)
    requires Consistent(files, tree, linked, owner, cleanups) && f in files && f !in linked && files[f].count == 1
    ensures Consistent(files - {f}, tree, linked, owner - {files[f].fd}, cleanups - multiset{f})
  {
    var files', owner', cleanups' := files - {f}, owner - {files[f].fd}, cleanups - multiset{f};
    assert EntriesOk(files', linked, cleanups');
    assert OwnersOk(files', owner');
    assert IndexOk(files', tree, linked);
  }

  lemma Collapse(files0: map<FileId, File>, files1: map<FileId, File>, files: map<FileId, File>, f: FileId)
    requires f in files0 && f in files1 && files1 == files0[f := files1[f]]
    ensures files1 - {f} == files0 - {f}
    ensures f in files && files == files1[f := files[f]] ==> files == files0[f := files[f]]
  {
  }

  /** Whoever holds a cleanup keeps the same open descriptor. */
  ghost predicate KeptOpen(files: map<FileId, File>, files': map<FileId, File>, cleanups: multiset<FileId>) {
    forall f :: f in cleanups && f in files ==> f in files' && files'[f].fd == files[f].fd
  }

  lemma KeptTwice(a: map<FileId, File>, b: map<FileId, File>, c: map<FileId, File>, cleanups: multiset<FileId>)
    requires KeptOpen(a, b, cleanups) && forall f :: f in b ==> f in c && (f in cleanups ==> c[f].fd == b[f].fd)
    ensures KeptOpen(a, c, cleanups)
  {
  }

  lemma KeptBoth(a: map<FileId, File>, b: map<FileId, File>, c: map<FileId, File>, cleanups: multiset<FileId>)
    requires KeptOpen(a, b, cleanups) && KeptOpen(b, c, cleanups)
    ensures KeptOpen(a, c, cleanups)
  {
  }

  /** Counting a use of an entry does not matter for the descriptors. */
  lemma HeldKept(a: map<FileId, File>, b: map<FileId, File>, c: map<FileId, File>, cleanups: multiset<FileId>,
                 f: FileId)
    requires f in a && f in b && b == a[f := b[f]] && b[f].fd == a[f].fd
    ensures KeptOpen(b, c, cleanups) ==> KeptOpen(a, c, cleanups)
    ensures KeptOpen(b - {f}, c, cleanups) ==> KeptOpen(a - {f}, c, cleanups)
    ensures Others(b, c, f) ==> Others(a, c, f)
  {
    assert b - {f} == a - {f};
  }

  // ----- what expires

  /** The entries from some place of the queue on are gone, or detached if they are in use; no other has changed. */
  ghost predicate Trimmed(files0: map<FileId, File>, queue0: seq<FileId>,
                          files: map<FileId, File>, queue: seq<FileId>)
  {
    && queue <= queue0
    && (forall f :: f in files ==> f in files0)
    && forall f :: f in files0 ==>
      if f !in queue0 || f in queue then f in files && files[f] == files0[f]
      else if files0[f].count > 0 then f in files && files[f] == files0[f].(close := true)
      else f !in files
  }

  lemma TrimmedTwice(files0: map<FileId, File>, queue0: seq<FileId>, files1: map<FileId, File>, queue1: seq<FileId>,
                     files2: map<FileId, File>, queue2: seq<FileId>)
    requires Trimmed(files0, queue0, files1, queue1) && Trimmed(files1, queue1, files2, queue2)
    ensures Trimmed(files0, queue0, files2, queue2)
  {
    forall f | f in queue2 ensures f in queue1 && f in queue0 {}
  }

  lemma {:induction false} WithoutLast(s: seq<FileId>)
    requires s != [] && Distinct(s)
    ensures Without(s, s[|s| - 1]) == s[..|s| - 1]
  {
    if |s| > 1 {
      WithoutLast(s[1..]);
      assert s[1..][|s| - 2] == s[|s| - 1];
      assert s[..|s| - 1] == [s[0]] + s[1..][..|s| - 2];
    }
  }

  predicate Inactive(e: File, inactive: int, now: int) {
    now - e.accessed > inactive
  }

  /**
    What ngx_expire_old_cached_files takes: entries from the end of the queue while
    they are inactive, the first one by force for n == 0, and never more than 3 - n.
   */
  ghost predicate Expiry(n: int, inactive: int, now: int, files0: map<FileId, File>, queue0: seq<FileId>,
                         files: map<FileId, File>, queue: seq<FileId>)
    requires 0 <= n <= 1
  {
    && Trimmed(files0, queue0, files, queue)
    && |queue0| - |queue| <= 3 - n
    && (forall i :: |queue| <= i < |queue0| - (1 - n) ==>
      queue0[i] in files0 && Inactive(files0[queue0[i]], inactive, now))
    && (|queue0| - |queue| == 3 - n || queue == [] ||
      (|queue0| - |queue| >= 1 - n && queue[|queue| - 1] in files &&
       !Inactive(files[queue[|queue| - 1]], inactive, now)))
  }

  /** The entry after a cleanup of it was given back, when it is in the queue. */
  function ReleasedEntry(e: File, minUses: int, now: int): File {
    e.(count := e.count - 1, accessed := now,
       fd := if e.count > 1 || e.uses >= minUses then e.fd else INVALID_FILE)
  }

  /** The entries after a cleanup was given back, before others expire. */
  ghost function FilesReleased(files: map<FileId, File>, queue: seq<FileId>, f: FileId, minUses: int, now: int)
      : map<FileId, File>
    requires f in files
  {
    if f in queue then files[f := ReleasedEntry(files[f], minUses, now)]
    else if files[f].count == 1 then files - {f}
    else files[f := files[f].(count := files[f].count - 1)]
  }

  ghost function QueueReleased(queue: seq<FileId>, f: FileId): seq<FileId> {
    if f in queue then [f] + Without(queue, f) else queue
  }

  lemma ReleasedKeeps(files: map<FileId, File>, tree: map<string, FileId>, queue: seq<FileId>,
                      owner: map<Fd, FileId>, cleanups: multiset<FileId>, f: FileId, minUses: int, now: int)
    requires Consistent(files, tree, queue, owner, cleanups) && f in cleanups
    ensures f in files && KeptOpen(files, FilesReleased(files, queue, f, minUses, now), cleanups - multiset{f})
  {
    assert EntryOk(files[f], f in queue, cleanups[f]);
  }

  class Cache {
    var files: map<FileId, File>
    var tree: map<string, FileId>
    var queue: seq<FileId>
    var current: int
    const max: int
    const inactive: int
    ghost var owner: map<Fd, FileId>
    ghost var cleanups: multiset<FileId>
    ghost var loose: set<Fd>    // descriptors opened and not yet stored in an entry
    ghost var lost: set<Fd>     // open descriptors that no entry owns any more

    /** The invariant, while a descriptor may be open that is not yet stored in an entry. */
    ghost predicate Core()
      reads this
    {
      && Consistent(files, tree, queue, owner, cleanups)
      && 1 <= max && current == |queue| <= max && Apart(owner, lost + loose) == true
    }

    ghost predicate Valid()
      reads this
    {
      Core() && loose == {}
    }

    constructor (max: int, inactive: int)
      requires max >= 1
      ensures Valid() && files == map[] && tree == map[] && owner == map[] && cleanups == multiset{} && lost == {}
      ensures this.max == max && this.inactive == inactive
    {
      this.max := max;
      this.inactive := inactive;
      files, tree, queue, current := map[], map[], [], 0;
      owner, cleanups, loose, lost := map[], multiset{}, {}, {};
    }

    /** close(fd) for a descriptor that an entry owns: it must be open. */
    method CloseFile(fd: Fd)
      requires fd in owner
      modifies this`owner
      ensures owner == old(owner) - {fd}
    {
      owner := owner - {fd};
    }

    /** ngx_close_cached_file */
    method CloseCachedFile(file: FileId, minUses: int, now: int)
      requires file in files && (files[file].fd != INVALID_FILE ==> files[file].fd in owner)
      modifies this`files, this`queue, this`owner
      ensures var e := old(files[file]);
        var stays := e.count != 0 || (!e.close && e.uses >= minUses);
        && queue == (if e.close then old(queue) else [file] + Without(old(queue), file))
        && owner == (if stays || e.fd == INVALID_FILE then old(owner) else old(owner) - {e.fd})
        && files == (if e.close then if stays then old(files) else old(files) - {file}
                     else old(files)[file := e.(accessed := now, fd := if stays then e.fd else INVALID_FILE)])
    {
      if !files[file].close {
        files := files[file := files[file].(accessed := now)];
        queue := [file] + Without(queue, file);
        if files[file].uses >= minUses || files[file].count != 0 {
          return;
        }
      }
      if files[file].count != 0 {
        return;
      }
      if files[file].fd != INVALID_FILE {
        CloseFile(files[file].fd);
        files := files[file := files[file].(fd := INVALID_FILE)];
      }
      if !files[file].close {
        return;
      }
      files := files - {file};
    }

    /** Takes an entry out of the queue and the tree, and drops or detaches it. */
    method DropEntry(file: FileId, now: int)
      requires Core() && file in queue
      modifies this`files, this`tree, this`queue, this`current, this`owner
      ensures Core() && current == old(current) - 1 && queue == Without(old(queue), file)
      ensures files == if old(files[file].count) > 0 then old(files)[file := old(files[file]).(close := true)]
        else old(files) - {file}
      ensures tree == old(tree - {files[file].name}) && KeptOpen(old(files), files, cleanups)
      ensures owner.Keys <= old(owner.Keys)
    {
      ghost var e := files[file];
      if e.count > 0 {
        Detached(files, tree, queue, owner, cleanups, file);
      } else {
        Freed(files, tree, queue, owner, cleanups, file);
      }
      assert files[file := e.(close := true)] - {file} == files - {file};
      queue := Without(queue, file);
      tree := tree - {files[file].name};
      current := current - 1;
      if files[file].err == 0 && !files[file].isDir {
        files := files[file := files[file].(close := true)];
        CloseCachedFile(file, 0, now);
      } else {
        files := files - {file};
      }
    }

    /** The last entry of the queue is dropped. */
    method DropLast(now: int)
      requires Core() && queue != []
      modifies this`files, this`tree, this`queue, this`current, this`owner
      ensures Core() && current == old(current) - 1 && queue == old(queue[..|queue| - 1])
      ensures Trimmed(old(files), old(queue), files, queue) && KeptOpen(old(files), files, cleanups)
      ensures tree.Keys <= old(tree.Keys) && owner.Keys <= old(owner.Keys)
    {
      var file := queue[|queue| - 1];
      WithoutLast(queue);
      DropEntry(file, now);
    }

    /** ngx_expire_old_cached_files */
    method ExpireOldCachedFiles(n0: int, now: int)
      requires Core() && n0 in {0, 1}
      modifies this`files, this`tree, this`queue, this`current, this`owner
      ensures Core() && Expiry(n0, inactive, now, old(files), old(queue), files, queue)
      ensures tree.Keys <= old(tree.Keys) && owner.Keys <= old(owner.Keys)
      ensures KeptOpen(old(files), files, cleanups)
    {
      var n := n0;
      while n < 3
        invariant Core() && n0 <= n <= 3 && |old(queue)| - |queue| == n - n0
        invariant Trimmed(old(files), old(queue), files, queue)
        invariant forall i :: |queue| <= i < |old(queue)| - (1 - n0) ==>
          old(queue)[i] in old(files) && Inactive(old(files)[old(queue)[i]], inactive, now)
        invariant tree.Keys <= old(tree.Keys) && owner.Keys <= old(owner.Keys)
        invariant KeptOpen(old(files), files, cleanups)
        decreases 3 - n
      {
        if queue == [] {
          return;
        }
        var file := queue[|queue| - 1];
        if n != 0 && now - files[file].accessed <= inactive {
          return;
        }
        n := n + 1;
        ghost var files1, queue1 := files, queue;
        DropLast(now);
        TrimmedTwice(old(files), old(queue), files1, queue1, files, queue);
        KeptBoth(old(files), files1, files, cleanups);
      }
    }

    /** The first two steps of ngx_open_file_cleanup, for an entry in the queue. */
    method ReleaseLinked(file: FileId, minUses: int, now: int)
      requires Core() && file in cleanups && file in queue
      modifies this`files, this`queue, this`owner, this`cleanups
      ensures Core() && cleanups == old(cleanups) - multiset{file} && file in old(files)
      ensures files == old(files)[file := ReleasedEntry(old(files)[file], minUses, now)]
      ensures queue == [file] + Without(old(queue), file) && owner.Keys <= old(owner.Keys)
      ensures files[file].fd == INVALID_FILE ==> old(files)[file].fd !in owner
    {
      LinkedInUse(files, tree, queue, owner, cleanups, file);
      ghost var files0, e := files, files[file];
      ghost var keep := e.count > 1 || e.uses >= minUses;
      Released(files, tree, queue, owner, cleanups, file, keep, now);
      cleanups := cleanups - multiset{file};
      files := files[file := files[file].(count := files[file].count - 1)];
      CloseCachedFile(file, minUses, now);
      Twice(files0, file, e.(count := e.count - 1), ReleasedEntry(e, minUses, now));
      assert files == files0[file := ReleasedEntry(e, minUses, now)];
      ApartShrink(old(owner), owner, lost + loose);
    }

    /** The same for a detached entry. */
    method ReleaseDetached(file: FileId, minUses: int, now: int)
      requires Core() && file in cleanups && file !in queue
      modifies this`files, this`queue, this`owner, this`cleanups
      ensures Core() && cleanups == old(cleanups) - multiset{file} && file in old(files)
      ensures files == FilesReleased(old(files), old(queue), file, minUses, now) && queue == old(queue)
      ensures owner.Keys <= old(owner.Keys)
      ensures old(files)[file].count == 1 ==> old(files)[file].fd !in owner
    {
      ghost var files0, e := files, files[file];
      if e.count == 1 {
        Reaped(files, tree, queue, owner, cleanups, file);
      } else {
        Counted(files, tree, queue, owner, cleanups, file, e.count - 1);
        assert cleanups - multiset{file} == cleanups[file := e.count - 1];
      }
      cleanups := cleanups - multiset{file};
      files := files[file := files[file].(count := files[file].count - 1)];
      ghost var files1 := files;
      CloseCachedFile(file, minUses, now);
      Collapse(files0, files1, files, file);
      ApartShrink(old(owner), owner, lost + loose);
    }

    /**
      ngx_open_file_cleanup: a request gives its cleanup back.  The last one closes the
      descriptor of a detached entry, and of one in the queue that was not used often
      enough; then inactive entries expire.
     */
    method OpenFileCleanup(file: FileId, minUses: int, now: int)
      requires Valid() && file in cleanups
      modifies this`files, this`tree, this`queue, this`current, this`owner, this`cleanups
      ensures Valid() && cleanups == old(cleanups) - multiset{file} && file in old(files)
      ensures Expiry(1, inactive, now, FilesReleased(old(files), old(queue), file, minUses, now),
                     QueueReleased(old(queue), file), files, queue)
      ensures KeptOpen(old(files), files, cleanups)
      ensures old(files)[file].count == 1 && (file !in old(queue) || old(files)[file].uses < minUses) ==>
        old(files)[file].fd !in owner
    {
      ReleasedKeeps(files, tree, queue, owner, cleanups, file, minUses, now);
      if file in queue {
        ReleaseLinked(file, minUses, now);
      } else {
        ReleaseDetached(file, minUses, now);
      }
      ghost var files1 := files;
      ExpireOldCachedFiles(1, now);
      KeptBoth(old(files), files1, files, cleanups);
    }

    /** The state while `file` is out of the queue and still in the tree. */
    ghost predicate Holding(file: FileId)
      reads this
    {
      && Consistent(files, tree, [file] + queue, owner, cleanups)
      && current == 1 + |queue| <= max && Apart(owner, lost + loose) == true
      && file in files && file !in queue
    }

    /** The labels found and after: the entry goes to the head of the queue. */
    method Finish(file: FileId, now: int)
      requires Holding(file)
      modifies this`files, this`queue
      ensures Core() && files == old(files)[file := old(files[file]).(accessed := now)] && queue == [file] + old(queue)
    {
      Touched(files, tree, [file] + queue, owner, cleanups, file, files[file].(accessed := now));
      files := files[file := files[file].(accessed := now)];
      queue := [file] + queue;
    }

    /** The request gets a cleanup for the descriptor of `file`. */
    method Count(file: FileId)
      requires Holding(file) && files[file].fd != INVALID_FILE
      modifies this`files, this`cleanups
      ensures Holding(file) && cleanups == old(cleanups) + multiset{file}
      ensures files == old(files)[file := old(files[file]).(count := old(files[file].count) + 1)]
    {
      Counted(files, tree, [file] + queue, owner, cleanups, file, files[file].count + 1);
      assert cleanups + multiset{file} == cleanups[file := files[file].count + 1];
      files := files[file := files[file].(count := files[file].count + 1)];
      cleanups := cleanups + multiset{file};
    }

    /** The label update for a newly opened file, in an entry without a descriptor. */
    method InstallFile(file: FileId, fd: Fd, uniq: int, now: int)
      requires Holding(file) && files[file].fd == INVALID_FILE && loose == {fd} && fd != INVALID_FILE && fd !in lost
      modifies this`files, this`queue, this`owner, this`cleanups, this`loose
      ensures Valid() && cleanups == old(cleanups) + multiset{file} && queue == [file] + old(queue)
      ensures file in files && files == old(files)[file := files[file]]
      ensures Describes(files[file], old(files[file]), Opened(fd, uniq), now)
      ensures files[file].name == old(files[file].name) && files[file].uses == old(files[file].uses)
      ensures forall d :: d in owner ==> d in old(owner) || d == fd
    {
      var e := files[file].(fd := fd, err := 0, uniq := uniq, close := false, isDir := false, created := now);
      Stored(files, tree, [file] + queue, owner, cleanups, file, e);
      files := files[file := e];
      owner, loose := owner[fd := file], {};
      assert Apart(owner, lost + loose);
      Count(file);
      Finish(file, now);
    }

    /** The label update for a directory or an error to cache. */
    method InstallOther(file: FileId, ans: Answer, now: int)
      requires Holding(file) && files[file].fd == INVALID_FILE && loose == {}
      requires ans.Directory? || (ans.Failed? && ans.err != 0)
      modifies this`files, this`queue
      ensures Valid() && queue == [file] + old(queue)
      ensures file in files && files == old(files)[file := files[file]]
      ensures Describes(files[file], old(files[file]), ans, now) && files[file].uses == old(files[file].uses)
    {
      var e := if ans.Failed? then files[file].(err := ans.err, created := now)
               else files[file].(err := 0, uniq := ans.uniq, close := false, isDir := true, created := now);
      Stored(files, tree, [file] + queue, owner, cleanups, file, e);
      files := files[file := e];
      Finish(file, now);
    }

    method Install(file: FileId, ans: Answer, now: int) returns (info: Info)
      requires Holding(file) && files[file].fd == INVALID_FILE
      requires !ans.Unchanged? && !ans.SameDirectory? && (ans.Failed? ==> ans.err != 0)
      requires if ans.Opened? then loose == {ans.fd} && ans.fd != INVALID_FILE && ans.fd !in lost else loose == {}
      modifies this`files, this`queue, this`owner, this`cleanups, this`loose
      ensures Valid() && queue == [file] + old(queue)
      ensures cleanups == if ans.Opened? then old(cleanups) + multiset{file} else old(cleanups)
      ensures file in files && files == old(files)[file := files[file]]
      ensures info == Given(ans, INVALID_FILE) && files[file].fd == info.fd
      ensures Describes(files[file], old(files[file]), ans, now) && files[file].uses == old(files[file].uses)
      ensures forall d :: d in owner ==> d in old(owner) || (ans.Opened? && d == ans.fd)
    {
      match ans {
        case Opened(fd, uniq) =>
          InstallFile(file, fd, uniq, now);
          info := Info(true, fd, false, 0);
        case Directory(uniq) =>
          InstallOther(file, ans, now);
          info := Info(true, INVALID_FILE, true, 0);
        case Failed(err) =>
          InstallOther(file, ans, now);
          info := Info(false, INVALID_FILE, false, err);
      }
    }

    /** The label failed, for an entry that is out of the queue. */
    method Discard(file: FileId)
      requires Holding(file)
      modifies this`files, this`tree, this`current, this`owner
      ensures Core() && current == old(current) - 1 && tree == old(tree - {files[file].name})
      ensures KeptOpen(old(files), files, cleanups) && files.Keys <= old(files.Keys) && owner.Keys <= old(owner.Keys)
      ensures Others(old(files), files, file)
    {
      ghost var linked := [file] + queue;
      assert linked[0] == file;
      WithoutHead(file, queue);
      if files[file].count == 0 {
        Freed(files, tree, linked, owner, cleanups, file);
      } else {
        Detached(files, tree, linked, owner, cleanups, file);
      }
      tree := tree - {files[file].name};
      current := current - 1;
      if files[file].count == 0 {
        if files[file].fd != INVALID_FILE {
          CloseFile(files[file].fd);
        }
        files := files - {file};
      } else {
        files := files[file := files[file].(close := true)];
      }
    }

    /** A new entry in the tree; the fields that are set only when there is no error keep what the memory held. */
    method AddEntry(name: string, err: int, junk: File, id: FileId)
      requires Core() && current < max && name !in tree && id !in files
      modifies this`files, this`tree, this`current
      ensures Holding(id) && tree == old(tree)[name := id] && files == old(files)[id := files[id]]
      ensures files[id].fd == INVALID_FILE && files[id].name == name && files[id].uses == 1
    {
      var e := junk.(name := name, fd := INVALID_FILE, err := err, close := err != 0 && junk.close,
                     uses := 1, count := 0);
      Created(files, tree, queue, owner, cleanups, id, e);
      files := files[id := e];
      tree := tree[name := id];
      current := current + 1;
    }

    /** The label create: a new entry, after the least recently used ones have made room for it. */
    method Create(name: string, ans: Answer, junk: File, id: FileId, gotMemory: bool, now: int) returns (info: Info)
      requires Core() && name !in tree && id !in files
      requires !ans.Unchanged? && !ans.SameDirectory? && (ans.Failed? ==> ans.err != 0)
      requires if ans.Opened? then loose == {ans.fd} && ans.fd != INVALID_FILE && ans.fd !in lost else loose == {}
      modifies this`files, this`tree, this`queue, this`current, this`owner, this`cleanups, this`loose
      ensures Valid() && KeptOpen(old(files), files, old(cleanups))
      ensures info == if gotMemory then Given(ans, INVALID_FILE) else Info(false, INVALID_FILE, false, 0)
      ensures gotMemory ==> name in tree && tree[name] == id && id in files
      ensures gotMemory ==> files[id].fd == info.fd && Describes(files[id], junk, ans, now) && files[id].uses == 1
      ensures cleanups == if info.ok && !info.isDir then old(cleanups) + multiset{id} else old(cleanups)
      ensures info.ok && !info.isDir ==> info.fd != INVALID_FILE
      ensures NothingElse(old(files), files, id, old(owner), owner, ans)
      ensures gotMemory ==> queue != [] && queue[0] == id
      ensures old(current) < max ==> Heads(name, gotMemory, 1, old(queue))
      ensures if old(current) < max then Others(old(files), files, id)
        else Expiry(0, inactive, now, old(files), old(queue), files - {id}, Without(queue, id))
    {
      if current >= max {
        ExpireOldCachedFiles(0, now);
      }
      ghost var files1, queue1 := files, queue;
      info := Fill(name, ans, junk, id, gotMemory, now);
      KeptBoth(old(files), files1, files, old(cleanups));
    }

    /** The new entry, if there is memory for it. */
    method Fill(name: string, ans: Answer, junk: File, id: FileId, gotMemory: bool, now: int) returns (info: Info)
      requires Core() && current < max && name !in tree && id !in files
      requires !ans.Unchanged? && !ans.SameDirectory? && (ans.Failed? ==> ans.err != 0)
      requires if ans.Opened? then loose == {ans.fd} && ans.fd != INVALID_FILE && ans.fd !in lost else loose == {}
      modifies this`files, this`tree, this`queue, this`current, this`owner, this`cleanups, this`loose
      ensures Valid() && KeptOpen(old(files), files, old(cleanups)) && Others(old(files), files, id)
      ensures info == if gotMemory then Given(ans, INVALID_FILE) else Info(false, INVALID_FILE, false, 0)
      ensures gotMemory ==> name in tree && tree[name] == id && id in files
      ensures gotMemory ==> files[id].fd == info.fd && Describes(files[id], junk, ans, now) && files[id].uses == 1
      ensures cleanups == if info.ok && !info.isDir then old(cleanups) + multiset{id} else old(cleanups)
      ensures info.ok && !info.isDir ==> info.fd != INVALID_FILE
      ensures NothingElse(old(files), files, id, old(owner), owner, ans)
      ensures Heads(name, gotMemory, 1, old(queue))
      ensures files - {id} == old(files) && Without(queue, id) == old(queue)
    {
      ghost var files0, queue0 := files, queue;
      NotQueued(files, tree, queue, id);
      if !gotMemory {
        loose := {};    // close(of->fd), if a file was opened
        assert Apart(owner, lost + loose);
        assert files - {id} == files;
        WithoutAbsent(queue, id);
        return Info(false, INVALID_FILE, false, 0);
      }
      info := NewEntry(name, ans, junk, id, now);
      assert files - {id} == files0;
      WithoutHead(id, queue0);
    }

    /** The new entry is added and filled in. */
    method NewEntry(name: string, ans: Answer, junk: File, id: FileId, now: int) returns (info: Info)
      requires Core() && current < max && name !in tree && id !in files && !ans.Unchanged?
      requires !ans.SameDirectory? && (ans.Failed? ==> ans.err != 0)
      requires if ans.Opened? then loose == {ans.fd} && ans.fd != INVALID_FILE && ans.fd !in lost else loose == {}
      modifies this`files, this`tree, this`queue, this`current, this`owner, this`cleanups, this`loose
      ensures Valid() && id in files && files == old(files)[id := files[id]] && tree == old(tree)[name := id]
      ensures info == Given(ans, INVALID_FILE) && files[id].fd == info.fd
      ensures Describes(files[id], junk, ans, now) && files[id].uses == 1 && queue == [id] + old(queue)
      ensures cleanups == if ans.Opened? then old(cleanups) + multiset{id} else old(cleanups)
      ensures forall d :: d in owner ==> d in old(owner) || (ans.Opened? && d == ans.fd)
    {
      AddEntry(name, if ans.Failed? then ans.err else 0, junk, id);
      info := Install(id, ans, now);
    }

    /** A descriptor that ngx_open_and_stat_file opens is not stored in any entry yet. */
    method Receive(ans: Answer)
      requires Apart(owner, lost + loose) && loose == {}
      requires ans.Opened? ==> ans.fd !in owner
      modifies this`loose
      ensures loose == (if ans.Opened? then {ans.fd} else {}) && Apart(owner, lost + loose)
    {
      loose := if ans.Opened? then {ans.fd} else {};
    }

    /** Takes an entry found in the tree out of the queue, and counts the use. */
    method Hold(file: FileId)
      requires Core() && file in queue
      modifies this`files, this`queue
      ensures Holding(file) && file in old(files) && queue == Without(old(queue), file)
      ensures files == old(files)[file := old(files[file]).(uses := old(files[file].uses) + 1)]
    {
      var e := files[file].(uses := files[file].uses + 1);
      Touched(files, tree, queue, owner, cleanups, file, e);
      MovedToHead(files[file := e], tree, queue, owner, cleanups, file);
      files := files[file := e];
      queue := Without(queue, file);
    }

    /** A cached answer is given again. */
    method Hit(file: FileId, now: int) returns (info: Info)
      requires Holding(file) && loose == {} && !Idle(files[file])
      modifies this`files, this`queue, this`cleanups
      ensures Valid() && KeptOpen(old(files), files, old(cleanups)) && file in files && file in queue
      ensures info == Cached(old(files[file])) && files.Keys == old(files.Keys)
      ensures SameAnswer(files[file], old(files[file])) && files[file].accessed == now
      ensures Others(old(files), files, file)
      ensures info.ok && !info.isDir ==> info.fd == files[file].fd != INVALID_FILE
      ensures cleanups == if info.ok && !info.isDir then old(cleanups) + multiset{file} else old(cleanups)
      ensures files[file].name == old(files[file].name) && files[file].uses == old(files[file].uses)
      ensures queue == [file] + old(queue)
    {
      var e := files[file];
      info := Cached(e);
      if info.ok && !info.isDir {
        Count(file);
      }
      Finish(file, now);
    }

    /** The entry of a file that stat() finds unchanged is used again. */
    method Refresh(file: FileId, now: int) returns (info: Info)
      requires Holding(file) && loose == {} && files[file].fd != INVALID_FILE
      modifies this`files, this`queue, this`cleanups
      ensures Valid() && KeptOpen(old(files), files, old(cleanups)) && file in files && file in queue
      ensures info == Info(true, files[file].fd, false, 0) && info.fd != INVALID_FILE
      ensures files[file].fd == old(files[file].fd)
      ensures files[file].uniq == old(files[file].uniq) && files[file].created == now && files.Keys == old(files.Keys)
      ensures files[file].err == old(files[file].err) && files[file].isDir == old(files[file].isDir)
      ensures files[file].accessed == now && Others(old(files), files, file)
      ensures cleanups == old(cleanups) + multiset{file} && files[file].name == old(files[file].name)
      ensures files[file].uses == old(files[file].uses) && queue == [file] + old(queue)
    {
      info := Info(true, files[file].fd, false, 0);
      Touched(files, tree, [file] + queue, owner, cleanups, file, files[file].(created := now));
      files := files[file := files[file].(created := now)];
      Count(file);
      Finish(file, now);
    }

    /** The race: the entry takes a second descriptor for the inode it already has open. */
    method Overwrite(file: FileId, fd: Fd, now: int) returns (info: Info)
      requires Holding(file) && loose == {fd} && fd != INVALID_FILE && fd !in lost && files[file].fd != INVALID_FILE
      modifies this`files, this`queue, this`cleanups, this`owner, this`loose, this`lost
      ensures Valid() && file in files && file in queue && lost == old(lost) + {old(files[file].fd)}
      ensures info == Info(true, fd, false, 0) && files[file].fd == fd && files[file].uniq == old(files[file].uniq)
      ensures files[file].created == files[file].accessed == now && (IsFile(old(files[file])) ==> IsFile(files[file]))
      ensures files.Keys == old(files.Keys) && KeptOpen(old(files) - {file}, files, old(cleanups))
      ensures Others(old(files), files, file)
      ensures files[file].uses == old(files[file].uses) && queue == [file] + old(queue)
      ensures forall d :: d in owner ==> d in old(owner) || d == fd
      ensures cleanups == old(cleanups) + multiset{file} && files[file].name == old(files[file].name)
    {
      info := Info(true, fd, false, 0);
      Replaced(files, tree, [file] + queue, owner, cleanups, file, fd);
      var first := files[file].fd;
      owner, loose, lost := (owner - {first})[fd := file], {}, lost + {first};
      files := files[file := files[file].(fd := fd)];
      assert Apart(owner, lost + loose);
      var info' := Refresh(file, now);
    }

    ghost predicate DescribedIn(name: string, e0: File, ans: Answer, now: int)
      reads this
    {
      name in tree && tree[name] in files && Describes(files[tree[name]], e0, ans, now)
    }

    /** The entry with the name is at the head of the queue, with so many uses; or nothing is kept. */
    ghost predicate Heads(name: string, kept: bool, uses: int, behind: seq<FileId>)
      reads this
    {
      if kept then
        name in tree && tree[name] in files && files[tree[name]].uses == uses && queue == [tree[name]] + behind
      else
        queue == behind
    }

    /** Where an entry that was known is in the queue, and how often it was used. */
    ghost predicate Ranked(req: Request, e: File, ans: Answer, gotMemory: bool, now: int, behind: seq<FileId>)
      reads this
    {
      var valid := StillValid(e, req, now);
      var other := !valid && e.fd != INVALID_FILE && e.count > 0 && !ans.Unchanged? && !SameFile(e, ans);
      var kept := valid || (!(ans.Failed? && (ans.err == 0 || !req.errors)) && (gotMemory || !other));
      Heads(req.name, kept, if other then 1 else e.uses + 1, behind)
    }

    /** The request has an open descriptor and a cleanup for it, or neither. */
    ghost predicate Served(name: string, info: Info, before: multiset<FileId>)
      reads this
    {
      if info.ok && !info.isDir then
        && name in tree && tree[name] in files && files[tree[name]].fd == info.fd && info.fd in owner
        && cleanups == before + multiset{tree[name]}
      else
        cleanups == before
    }

    /** An entry that holds a descriptor nobody uses gives it up. */
    method Empty(file: FileId)
      requires Holding(file) && files[file].count == 0 && files[file].fd != INVALID_FILE
      modifies this`files, this`owner
      ensures Holding(file) && files == old(files)[file := old(files[file]).(fd := INVALID_FILE)]
      ensures owner.Keys <= old(owner.Keys)
    {
      Emptied(files, tree, [file] + queue, owner, cleanups, file);
      ApartShrink(owner, owner - {files[file].fd}, lost + loose);
      CloseFile(files[file].fd);
      files := files[file := files[file].(fd := INVALID_FILE)];
    }

    /** What the answer of a retest does to an entry that holds a descriptor, when it is not the same file any more. */
    method Changed(file: FileId, ans: Answer, junk: File, id: FileId, gotMemory: bool, now: int) returns (info: Info)
      requires Holding(file) && id !in files && files[file].fd != INVALID_FILE
      requires !ans.Unchanged? && !ans.SameDirectory? && (ans.Failed? ==> ans.err != 0)
      requires if ans.Opened? then loose == {ans.fd} && ans.fd != INVALID_FILE && ans.fd !in lost else loose == {}
      modifies this`files, this`tree, this`queue, this`current, this`owner, this`cleanups, this`loose
      ensures Valid() && KeptOpen(old(files), files, old(cleanups))
      ensures Served(old(files[file].name), info, old(cleanups))
      ensures info == if old(files[file].count) == 0 || gotMemory then Given(ans, INVALID_FILE)
        else Info(false, INVALID_FILE, false, 0)
      ensures old(files[file].count) == 0 || gotMemory ==>
        DescribedIn(old(files[file].name), old(files[file]), ans, now)
      ensures var n := old(files[file].count); var k := if n == 0 then old(files[file].uses) else 1;
        Heads(old(files[file].name), n == 0 || gotMemory, k, old(queue))
      ensures NothingElse(old(files), files, id, old(owner), owner, ans) && Others(old(files), files, file)
    {
      if files[file].count == 0 {
        info := ChangedIdle(file, ans, now);
      } else {
        info := ChangedUsed(file, ans, junk, id, gotMemory, now);
      }
    }

    /** An entry without a descriptor takes the answer. */
    method TakeAnswer(file: FileId, ans: Answer, now: int) returns (info: Info)
      requires Holding(file) && files[file].fd == INVALID_FILE
      requires !ans.Unchanged? && !ans.SameDirectory? && (ans.Failed? ==> ans.err != 0)
      requires if ans.Opened? then loose == {ans.fd} && ans.fd != INVALID_FILE && ans.fd !in lost else loose == {}
      modifies this`files, this`queue, this`owner, this`cleanups, this`loose
      ensures Valid() && KeptOpen(old(files), files, old(cleanups))
      ensures Served(old(files[file].name), info, old(cleanups)) && info == Given(ans, INVALID_FILE)
      ensures DescribedIn(old(files[file].name), old(files[file]), ans, now)
      ensures Heads(old(files[file].name), true, old(files[file].uses), old(queue))
      ensures files.Keys == old(files.Keys) && Others(old(files), files, file)
      ensures forall d :: d in owner ==> d in old(owner) || (ans.Opened? && d == ans.fd)
    {
      Linked(files, tree, [file] + queue, owner, cleanups, file);
      info := Install(file, ans, now);
    }

    /** Nobody uses the descriptor: it is closed, and the entry takes the answer. */
    method ChangedIdle(file: FileId, ans: Answer, now: int) returns (info: Info)
      requires Holding(file) && files[file].fd != INVALID_FILE && files[file].count == 0
      requires !ans.Unchanged? && !ans.SameDirectory? && (ans.Failed? ==> ans.err != 0)
      requires if ans.Opened? then loose == {ans.fd} && ans.fd != INVALID_FILE && ans.fd !in lost else loose == {}
      modifies this`files, this`queue, this`owner, this`cleanups, this`loose
      ensures Valid() && KeptOpen(old(files), files, old(cleanups))
      ensures Served(old(files[file].name), info, old(cleanups)) && info == Given(ans, INVALID_FILE)
      ensures DescribedIn(old(files[file].name), old(files[file]), ans, now)
      ensures Heads(old(files[file].name), true, old(files[file].uses), old(queue))
      ensures files.Keys == old(files.Keys) && Others(old(files), files, file)
      ensures forall d :: d in owner ==> d in old(owner) || (ans.Opened? && d == ans.fd)
    {
      Empty(file);
      info := TakeAnswer(file, ans, now);
    }

    /** The descriptor stays with its users, and a new entry takes the answer. */
    method ChangedUsed(file: FileId, ans: Answer, junk: File, id: FileId, gotMemory: bool, now: int)
      returns (info: Info)
      requires Holding(file) && id !in files && files[file].fd != INVALID_FILE && files[file].count > 0
      requires !ans.Unchanged? && !ans.SameDirectory? && (ans.Failed? ==> ans.err != 0)
      requires if ans.Opened? then loose == {ans.fd} && ans.fd != INVALID_FILE && ans.fd !in lost else loose == {}
      modifies this`files, this`tree, this`queue, this`current, this`owner, this`cleanups, this`loose
      ensures Valid() && KeptOpen(old(files), files, old(cleanups))
      ensures Served(old(files[file].name), info, old(cleanups))
      ensures info == if gotMemory then Given(ans, INVALID_FILE) else Info(false, INVALID_FILE, false, 0)
      ensures gotMemory ==> DescribedIn(old(files[file].name), old(files[file]), ans, now)
      ensures Heads(old(files[file].name), gotMemory, 1, old(queue))
      ensures NothingElse(old(files), files, id, old(owner), owner, ans) && Others(old(files), files, file)
    {
      var name := files[file].name;
      Discard(file);
      info := Create(name, ans, junk, id, gotMemory, now);
    }

    /** The same inode number on a directory, when nobody uses the descriptor: it is closed and stored again. */
    method ConfuseIdle(file: FileId, now: int)
      requires Holding(file) && files[file].fd != INVALID_FILE && files[file].count == 0
      modifies this`files, this`queue, this`owner
      ensures file in files && files == old(files)[file := files[file]] && owner.Keys <= old(owner.Keys)
      ensures files[file] == old(files[file]).(err := 0, close := false, isDir := true, created := now, accessed := now)
      ensures files[file].fd !in owner && !Core() && queue == [file] + old(queue)
    {
      CloseFile(files[file].fd);
      files := files[file := files[file].(err := 0, close := false, isDir := true, created := now, accessed := now)];
      queue := [file] + queue;
      Broken(files, tree, queue, owner, cleanups, file);
    }

    /** A new directory entry takes a descriptor that it does not own. */
    method StoreAgain(name: string, fd: Fd, uniq: int, junk: File, id: FileId, now: int)
      requires Core() && current < max && name !in tree && id !in files && fd != INVALID_FILE
      modifies this`files, this`tree, this`queue, this`current
      ensures id in files && files == old(files)[id := files[id]] && tree == old(tree)[name := id] && !Core()
      ensures files[id].uses == 1 && queue == [id] + old(queue)
      ensures var e := files[id];
        e.fd == fd && e.uniq == uniq && e.err == 0 && e.isDir && e.created == now && e.accessed == now
    {
      AddEntry(name, 0, junk, id);
      files := files[id := files[id].(fd := fd, err := 0, uniq := uniq, close := false, isDir := true,
                                      created := now, accessed := now)];
      queue := [id] + queue;
      Broken(files, tree, queue, owner, cleanups, id);
    }

    /** The same when the descriptor is in use: it is closed for lack of memory, or stored in a second entry. */
    method ConfuseUsed(file: FileId, junk: File, id: FileId, gotMemory: bool, now: int)
      requires Holding(file) && id !in files && files[file].fd != INVALID_FILE && files[file].count > 0 && loose == {}
      modifies this`files, this`tree, this`queue, this`current, this`owner
      ensures KeptOpen(old(files), files, cleanups) && file in files && files[file].fd == old(files[file].fd)
      ensures gotMemory ==> id in files && files[id].fd == files[file].fd && files[id].isDir
      ensures gotMemory ==> old(files[file].name) in tree && tree[old(files[file].name)] == id
      ensures gotMemory ==> Describes(files[id], old(files[file]), SameDirectory, now)
      ensures !gotMemory ==> files[file].fd !in owner
      ensures file in cleanups && !Core()
      ensures (forall f :: f in files ==> f in old(files) || f == id) && owner.Keys <= old(owner.Keys)
      ensures Others(old(files), files, file) && Heads(old(files[file].name), gotMemory, 1, old(queue))
    {
      var name, fd, uniq := files[file].name, files[file].fd, files[file].uniq;
      Linked(files, tree, [file] + queue, owner, cleanups, file);
      Discard(file);
      assert current < max;   // so that nothing expires
      if gotMemory {
        ghost var files1 := files;
        StoreAgain(name, fd, uniq, junk, id, now);
        KeptTwice(old(files), files1, files, cleanups);
      } else {
        Owned(files, tree, queue, owner, cleanups, file);
        CloseFile(fd);
        Broken(files, tree, queue, owner, cleanups, file);
      }
    }

    /** Where a descriptor is found after the inode number of its file was found on a directory. */
    ghost predicate TwiceStored(name: string, e: File, file: FileId, id: FileId, gotMemory: bool)
      reads this
    {
      if e.count == 0 then
        // a directory entry with a descriptor that is closed
        && file in files && files[file].isDir && files[file].fd == e.fd && e.fd !in owner
        && name in tree && tree[name] == file
      else if gotMemory then
        // a directory entry with a descriptor that another entry owns and requests use
        && file in cleanups && file in files && id in files && files[id].isDir && files[id].fd == files[file].fd == e.fd
        && name in tree && tree[name] == id
      else
        // an entry in use with a descriptor that is closed
        file in cleanups && file in files && files[file].fd == e.fd && e.fd !in owner
    }

    method Confuse(file: FileId, junk: File, id: FileId, gotMemory: bool, now: int) returns (info: Info)
      requires Holding(file) && id !in files && files[file].fd != INVALID_FILE && loose == {}
      modifies this`files, this`tree, this`queue, this`current, this`owner
      ensures !Core() && KeptOpen(old(files) - {file}, files, cleanups)
      ensures TwiceStored(old(files[file].name), old(files[file]), file, id, gotMemory)
      ensures old(files[file].count) == 0 || gotMemory ==>
        DescribedIn(old(files[file].name), old(files[file]), SameDirectory, now)
      ensures info == if old(files[file].count) == 0 || gotMemory then Info(true, old(files[file].fd), true, 0)
        else Info(false, INVALID_FILE, false, 0)
      ensures (forall f :: f in files ==> f in old(files) || f == id) && owner.Keys <= old(owner.Keys)
      ensures Others(old(files), files, file)
      ensures var n := old(files[file].count); var k := if n == 0 then old(files[file].uses) else 1;
        Heads(old(files[file].name), n == 0 || gotMemory, k, old(queue))
    {
      var fd := files[file].fd;
      Linked(files, tree, [file] + queue, owner, cleanups, file);
      if files[file].count == 0 {
        ConfuseIdle(file, now);
        info := Info(true, fd, true, 0);
      } else {
        ConfuseUsed(file, junk, id, gotMemory, now);
        info := if gotMemory then Info(true, fd, true, 0) else Info(false, INVALID_FILE, false, 0);
      }
    }

    /** What the answer does to an entry that holds a descriptor. */
    method Renew(file: FileId, ans: Answer, junk: File, id: FileId, gotMemory: bool, now: int) returns (info: Info)
      requires Holding(file) && id !in files && files[file].fd != INVALID_FILE && (ans.Failed? ==> ans.err != 0)
      requires if ans.Opened? then loose == {ans.fd} && ans.fd != INVALID_FILE && ans.fd !in lost else loose == {}
      modifies this
      ensures Served(old(files[file].name), info, old(cleanups))
      ensures if ans.SameDirectory?
        then !Valid() && TwiceStored(old(files[file].name), old(files[file]), file, id, gotMemory)
        else Valid()
      ensures lost == if SameFile(old(files[file]), ans) then old(lost) + {old(files[file].fd)} else old(lost)
      ensures var spared := ans.SameDirectory? || SameFile(old(files[file]), ans);
        KeptOpen(if spared then old(files) - {file} else old(files), files, old(cleanups))
      ensures info == if Outdated(old(files[file]), ans) && !gotMemory then Info(false, INVALID_FILE, false, 0)
        else Given(ans, old(files[file].fd))
      ensures gotMemory || !Outdated(old(files[file]), ans) ==>
        DescribedIn(old(files[file].name), old(files[file]), ans, now)
      ensures var other := Outdated(old(files[file]), ans); var k := if other then 1 else old(files[file].uses);
        Heads(old(files[file].name), gotMemory || !other, k, old(queue))
      ensures NothingElse(old(files), files, id, old(owner), owner, ans) && Others(old(files), files, file)
    {
      if ans.Unchanged? {
        info := Refresh(file, now);
      } else if SameFile(files[file], ans) {
        info := Overwrite(file, ans.fd, now);
      } else if ans.SameDirectory? {
        info := Confuse(file, junk, id, gotMemory, now);
      } else {
        info := Changed(file, ans, junk, id, gotMemory, now);
      }
    }

    /** A lookup that finds an entry whose answer may not be given again. */
    method Retest(file: FileId, req: Request, ans: Answer, junk: File, id: FileId, gotMemory: bool, now: int)
      returns (info: Info)
      requires Holding(file) && id !in files
      requires ans.Unchanged? || ans.SameDirectory? ==> files[file].fd != INVALID_FILE
      requires if ans.Opened? then loose == {ans.fd} && ans.fd != INVALID_FILE && ans.fd !in lost else loose == {}
      modifies this
      ensures Served(old(files[file].name), info, old(cleanups))
      ensures if ans.SameDirectory?
        then !Valid() && TwiceStored(old(files[file].name), old(files[file]), file, id, gotMemory)
        else Valid()
      ensures var e := old(files[file]);
        lost == if e.fd != INVALID_FILE && SameFile(e, ans) then old(lost) + {e.fd} else old(lost)
      ensures var e := old(files[file]); var spared := e.fd != INVALID_FILE && (ans.SameDirectory? || SameFile(e, ans));
        KeptOpen(if spared then old(files) - {file} else old(files), files, old(cleanups))
      ensures info == if GivesUp(req, ans) then Info(false, INVALID_FILE, false, ans.err)
        else if Outdated(old(files[file]), ans) && !gotMemory then Info(false, INVALID_FILE, false, 0)
        else Given(ans, old(files[file].fd))
      ensures Stores(old(files[file]), req, ans, gotMemory) ==>
        DescribedIn(old(files[file].name), old(files[file]), ans, now)
      ensures var k := if Outdated(old(files[file]), ans) then 1 else old(files[file].uses);
        Heads(old(files[file].name), Stores(old(files[file]), req, ans, gotMemory), k, old(queue))
      ensures NothingElse(old(files), files, id, old(owner), owner, ans) && Others(old(files), files, file)
    {
      if GivesUp(req, ans) {
        Discard(file);
        info := Info(false, INVALID_FILE, false, ans.err);
      } else if files[file].fd == INVALID_FILE {
        info := TakeAnswer(file, ans, now);
      } else {
        info := Renew(file, ans, junk, id, gotMemory, now);
      }
    }

    /** The entry may not be used as it is: the operating system is asked. */
    method Miss(file: FileId, req: Request, ans: Answer, junk: File, id: FileId, gotMemory: bool, now: int)
      returns (info: Info)
      requires Valid() && file in queue && id !in files && req.name in tree && tree[req.name] == file
      requires ans.Opened? ==> ans.fd != INVALID_FILE && ans.fd !in owner && ans.fd !in lost
      requires ans.Unchanged? || ans.SameDirectory? ==> files[file].fd != INVALID_FILE
      modifies this
      ensures file in old(files) && Served(req.name, info, old(cleanups))
      ensures if ans.SameDirectory? then !Valid() && TwiceStored(req.name, old(files)[file], file, id, gotMemory)
        else Valid()
      ensures var e := old(files)[file];
        lost == if e.fd != INVALID_FILE && SameFile(e, ans) then old(lost) + {e.fd} else old(lost)
      ensures var e := old(files)[file]; var spared := e.fd != INVALID_FILE && (ans.SameDirectory? || SameFile(e, ans));
        KeptOpen(if spared then old(files) - {file} else old(files), files, old(cleanups))
      ensures info == if GivesUp(req, ans) then Info(false, INVALID_FILE, false, ans.err)
        else if Outdated(old(files)[file], ans) && !gotMemory then Info(false, INVALID_FILE, false, 0)
        else Given(ans, old(files)[file].fd)
      ensures Stores(old(files)[file], req, ans, gotMemory) ==> DescribedIn(req.name, old(files)[file], ans, now)
      ensures var k := if Outdated(old(files)[file], ans) then 1 else old(files)[file].uses + 1;
        Heads(req.name, Stores(old(files)[file], req, ans, gotMemory), k, Without(old(queue), file))
      ensures NothingElse(old(files), files, id, old(owner), owner, ans) && Others(old(files), files, file)
    {
      Linked(files, tree, queue, owner, cleanups, file);
      ghost var files0 := files;
      Hold(file);
      ghost var files1 := files;
      Receive(ans);
      info := Retest(file, req, ans, junk, id, gotMemory, now);
      HeldKept(files0, files1, files, old(cleanups), file);
    }

    /** The name is in the tree. */
    method Known(req: Request, ans: Answer, junk: File, id: FileId, gotMemory: bool, now: int) returns (info: Info)
      requires Valid() && id !in files && req.name in tree && tree[req.name] in files
      requires ans.Opened? ==> ans.fd != INVALID_FILE && ans.fd !in owner && ans.fd !in lost
      requires ans.Unchanged? || ans.SameDirectory? ==> files[tree[req.name]].fd != INVALID_FILE
      modifies this
      ensures Served(req.name, info, old(cleanups))
      ensures var f := old(tree[req.name]); var e := old(files)[f];
        if Confused(e, req, now, ans) then !Valid() && TwiceStored(req.name, e, f, id, gotMemory) else Valid()
      ensures var f := old(tree[req.name]); var e := old(files)[f];
        lost == if Race(e, req, now, ans) then old(lost) + {e.fd} else old(lost)
      ensures var f := old(tree[req.name]); var e := old(files)[f];
        KeptOpen(if Race(e, req, now, ans) || Confused(e, req, now, ans) then old(files) - {f} else old(files),
                 files, old(cleanups))
      ensures info == Reply(true, old(files[tree[req.name]]), req, ans, gotMemory, now)
      ensures Told(files, tree, req, true, old(files[tree[req.name]]), ans, gotMemory, now, info)
      ensures Ranked(req, old(files[tree[req.name]]), ans, gotMemory, now, Without(old(queue), old(tree[req.name])))
      ensures NothingElse(old(files), files, id, old(owner), owner, ans)
      ensures Others(old(files), files, old(tree[req.name]))
    {
      var file := tree[req.name];
      ghost var e := files[file];
      NotNegative(files, queue, cleanups, file);
      if Usable(files[file], req, now) {
        info := HitKnown(file, req.name, now);
        ToldHit(files, tree, req, e, ans, gotMemory, now, info);
      } else {
        info := Miss(file, req, ans, junk, id, gotMemory, now);
        ToldMiss(files, tree, req, true, e, ans, gotMemory, now, info);
      }
    }

    /** The cached answer of the entry is given again. */
    method HitKnown(file: FileId, ghost name: string, now: int) returns (info: Info)
      requires Valid() && file in queue && file in files && !Idle(files[file]) && name in tree && tree[name] == file
      modifies this`files, this`queue, this`cleanups
      ensures Valid() && KeptOpen(old(files), files, old(cleanups)) && files.Keys == old(files.Keys)
      ensures info == Cached(old(files[file])) && Served(name, info, old(cleanups))
      ensures name in tree && tree[name] == file && Others(old(files), files, file)
      ensures Heads(name, true, old(files[file]).uses + 1, Without(old(queue), file))
      ensures SameAnswer(files[file], old(files[file])) && files[file].accessed == now
    {
      ghost var files0 := files;
      Linked(files, tree, queue, owner, cleanups, file);
      Hold(file);
      ghost var files1 := files;
      info := Hit(file, now);
      HeldKept(files0, files1, files, old(cleanups), file);
      Linked(files, tree, queue, owner, cleanups, file);
    }

    /**
      ngx_open_cached_file.  It keeps the invariant exactly unless a retest finds the
      inode number of the cached descriptor on a directory.
     */
    method OpenCachedFile(req: Request, os: System, junk: File, id: FileId, gotMemory: bool, now: int)
      returns (info: Info)
      requires Valid() && id !in files
      requires os.open.Open? ==> os.open.fd != INVALID_FILE && os.open.fd !in owner && os.open.fd !in lost
      modifies this
      ensures Served(req.name, info, old(cleanups))
      ensures old(req.name in tree) ==> var f := old(tree[req.name]); var e := old(files)[f];
        var ans := Asked(true, e, req, os);
        && (Valid() <==> !Confused(e, req, now, ans))
        && (Confused(e, req, now, ans) ==> TwiceStored(req.name, e, f, id, gotMemory))
        && lost == (if Race(e, req, now, ans) then old(lost) + {e.fd} else old(lost))
        && KeptOpen(if Race(e, req, now, ans) || Confused(e, req, now, ans) then old(files) - {f} else old(files),
                    files, old(cleanups))
      ensures old(req.name in tree) ==>
        var f := old(tree[req.name]); var e := old(files)[f];
        && Others(old(files), files, f)
        && Ranked(req, e, Asked(true, e, req, os), gotMemory, now, Without(old(queue), f))
      ensures old(req.name !in tree) ==>
        && Valid() && lost == old(lost) && KeptOpen(old(files), files, old(cleanups))
        && if old(current) < max || GivesUp(req, Asked(false, junk, req, os)) then Others(old(files), files, id)
           else Expiry(0, inactive, now, old(files), old(queue), files - {id}, Without(queue, id))
      ensures old(req.name !in tree) ==> var gone := GivesUp(req, Asked(false, junk, req, os));
        && (gone || old(current) < max ==> Heads(req.name, !gone && gotMemory, 1, old(queue)))
        && (!gone && gotMemory ==> queue != [] && queue[0] == id && id in files && files[id].uses == 1)
      ensures var known := old(req.name in tree); var e := if known then old(files[tree[req.name]]) else junk;
        var ans := Asked(known, e, req, os);
        && info == Reply(known, e, req, ans, gotMemory, now)
        && Told(files, tree, req, known, e, ans, gotMemory, now, info)
        && NothingElse(old(files), files, id, old(owner), owner, ans)
    {
      if req.name in tree {
        var ans := Asked(true, files[tree[req.name]], req, os);
        info := Known(req, ans, junk, id, gotMemory, now);
      } else {
        var ans := Asked(false, junk, req, os);
        Receive(ans);
        if GivesUp(req, ans) {
          return Info(false, INVALID_FILE, false, ans.err);
        }
        info := Create(req.name, ans, junk, id, gotMemory, now);
        ToldMiss(files, tree, req, false, junk, ans, gotMemory, now, info);
      }
    }
  }

  // ----- two requests in a row

  /** Where the answer comes from: stat() decides whether a descriptor is kept, and open() is asked only if not. */
  lemma AskedOf(known: bool, e: File, req: Request, os: System)
    ensures var held := known && e.fd != INVALID_FILE; var tested := !held && ((known && e.isDir) || req.testDir);
      match Asked(known, e, req, os)
      case Unchanged => held && os.stat == Stat(e.uniq, false)
      case SameDirectory => held && os.stat == Stat(e.uniq, true)
      case Opened(d, u) =>
        && os.open == Open(d, Stat(u, false))
        && (held ==> os.stat.Stat? && os.stat.uniq != e.uniq) && (tested ==> os.stat.Stat? && !os.stat.isDir)
      case Directory(u) =>
        || (tested && os.stat == Stat(u, true))
        || ((held ==> os.stat.Stat? && os.stat.uniq != e.uniq) && os.open.Open? && os.open.stat == Stat(u, true))
      case Failed(err) =>
        || ((held || tested) && os.stat == StatError(err)) || os.open == OpenError(err)
        || (err == 0 && os.open.Open? && os.open.stat.StatError?)
  {
  }

  /** The fields of an entry that may be told again. */
  predicate StillValid(e: File, req: Request, now: int) {
    && (e.fd != INVALID_FILE || e.err != 0 || e.isDir)
    && (req.uniq == 0 || req.uniq == e.uniq) && now - e.created < req.valid && req.samePolicy
  }

  /** The reply is in the cache, since the given time. */
  ghost predicate Remembered(c: Cache, name: string, info: Info, created: int)
    reads c
  {
    && name in c.tree && c.tree[name] in c.files && Tells(info, c.files[c.tree[name]])
    && var e := c.files[c.tree[name]];
    (e.fd != INVALID_FILE || e.err != 0 || e.isDir) && e.created == created
  }

  /** The operating system opens no descriptor that is open. */
  ghost predicate NewDescriptor(c: Cache, os: System)
    reads c
  {
    os.open.Open? ==> os.open.fd != INVALID_FILE && os.open.fd !in c.owner && os.open.fd !in c.lost
  }

  /** A reply that is kept is remembered, since now or for as long as it was valid. */
  method FirstRequest(c: Cache, req: Request, os: System, ghost later: System, junk: File, id: FileId,
                      gotMemory: bool, now: int) returns (info: Info)
    requires c.Valid() && id !in c.files && NewDescriptor(c, os) && NewDescriptor(c, later)
    requires os.open.Open? && later.open.Open? ==> os.open.fd != later.open.fd
    requires req.name in c.tree && c.tree[req.name] in c.files ==>
      !Confused(c.files[c.tree[req.name]], req, now, Asked(true, c.files[c.tree[req.name]], req, os))
    modifies c
    ensures c.Valid() && NewDescriptor(c, later) && forall f :: f in c.files ==> f in old(c.files) || f == id
    ensures var valid := old(req.name in c.tree && StillValid(c.files[c.tree[req.name]], req, now));
      info.ok || (info.err != 0 && (valid || req.errors)) ==>
        Remembered(c, req.name, info, if valid then old(c.files[c.tree[req.name]]).created else now)
  {
    ghost var known := req.name in c.tree;
    ghost var e := if known then c.files[c.tree[req.name]] else junk;
    ghost var ans := Asked(known, e, req, os);
    if known {
      assert c.tree[req.name] in c.files;
      Owned0(c.files, c.owner, c.tree[req.name]);
    }
    info := c.OpenCachedFile(req, os, junk, id, gotMemory, now);
    assert Told(c.files, c.tree, req, known, e, ans, gotMemory, now, info);
  }

  lemma Owned0(files: map<FileId, File>, owner: map<Fd, FileId>, f: FileId)
    requires OwnersOk(files, owner) && f in files
    ensures files[f].fd != INVALID_FILE ==> files[f].fd in owner
  {
  }

  ghost predicate Same(a: Info, b: Info) {
    a.ok == b.ok && a.err == b.err && (a.ok ==> a.isDir == b.isDir && a.fd == b.fd)
  }

  /** What is remembered is told again. */
  method SecondRequest(c: Cache, req: Request, os: System, junk: File, id: FileId, gotMemory: bool, now: int,
                       ghost first: Info, ghost created: int) returns (info: Info)
    requires c.Valid() && id !in c.files && NewDescriptor(c, os) && req.uniq == 0 && req.samePolicy
    modifies c
    ensures old(Remembered(c, req.name, first, created)) && now - created < req.valid ==>
      c.Valid() && Same(first, info)
  {
    info := c.OpenCachedFile(req, os, junk, id, gotMemory, now);
  }

  /**
    The same name is asked for twice.  If the first reply was kept, a second request
    within the time of validity gets the same reply, whatever the operating system
    says by then.
   */
  method TwoRequests(c: Cache, req: Request, os: System, req2: Request, os2: System, junk: File,
                     id: FileId, id2: FileId, gotMemory: bool, gotMemory2: bool, now: int, now2: int)
      returns (info: Info, info2: Info)
    requires c.Valid() && id !in c.files && id2 !in c.files && id != id2
    requires NewDescriptor(c, os) && NewDescriptor(c, os2)
    requires os.open.Open? && os2.open.Open? ==> os.open.fd != os2.open.fd
    requires req.name in c.tree && c.tree[req.name] in c.files ==>
      !Confused(c.files[c.tree[req.name]], req, now, Asked(true, c.files[c.tree[req.name]], req, os))
    requires req2.name == req.name && req2.uniq == 0 && req2.samePolicy && now2 - now < req2.valid
    modifies c
    ensures var valid := old(req.name in c.tree && StillValid(c.files[c.tree[req.name]], req, now));
      && (valid ==> now2 - old(c.files[c.tree[req.name]]).created < req2.valid)
      && (info.ok || (info.err != 0 && (valid || req.errors))) ==>
        c.Valid() && Same(info, info2)
  {
    ghost var valid := req.name in c.tree && StillValid(c.files[c.tree[req.name]], req, now);
    ghost var created := if valid then c.files[c.tree[req.name]].created else now;
    info := FirstRequest(c, req, os, os2, junk, id, gotMemory, now);
    info2 := SecondRequest(c, req2, os2, junk, id2, gotMemory2, now2, info, created);
  }

  // ----- two runs that break what the cache promises

  /** A new cache after a request has opened descriptor 3 for the file "a" with inode number 7, at time 0. */
  method OpenedOnce(junk: File, req: Request) returns (c: Cache)
    requires req.name == "a"
    ensures fresh(c) && c.Valid() && HoldsThree(c) && c.cleanups == multiset{1}
    ensures c.lost == {} && c.max == 10 && c.inactive == 60 && forall d :: d in c.owner ==> d == 3
  {
    c := new Cache(10, 60);
    var os := System(Stat(7, false), Open(3, Stat(7, false)));
    assert OpenAndStat(INVALID_FILE, 0, req.testDir, os) == Opened(3, 7);
    var first := c.OpenCachedFile(req, os, junk, 1, true, 0);
    assert c.DescribedIn("a", junk, Opened(3, 7), 0);
    OnlyOne(c.files, c.tree, c.queue);
  }

  lemma OnlyOne(files: map<FileId, File>, tree: map<string, FileId>, queue: seq<FileId>)
    requires IndexOk(files, tree, queue) && forall f :: f in files ==> f == 1
    requires "a" in tree
    ensures files.Keys == {1} && queue == [1]
  {
    forall f | f in queue ensures f == 1 {
      assert f in files;
    }
    var g: FileId := tree["a"];
    assert g in queue && g in files && queue[0] in queue && queue[0] == 1;
    assert forall f :: f in files.Keys <==> f in {1};
    var rest := queue[1..];
    assert forall f :: f in rest ==> f in queue;
    FirstIn(rest);
  }

  lemma FirstIn(s: seq<FileId>)
    ensures s == [] || exists f :: f in s
  {
    if s != [] {
      var f: FileId := s[0];
      assert f in s;
    }
  }

  /** The only entry is that of "a", with descriptor 3. */
  ghost predicate HoldsThree(c: Cache)
    reads c
  {
    && c.files.Keys == {1} && "a" in c.tree && c.tree["a"] == 1 && c.queue == [1]
    && c.files[1].fd == 3 && c.files[1].uniq == 7 && c.files[1].created == 0 && IsFile(c.files[1])
  }

  /** The request gives its cleanup back at once; the descriptor stays open. */
  method GivenBack(c: Cache)
    requires c.Valid() && HoldsThree(c) && c.cleanups == multiset{1} && c.inactive == 60
    modifies c
    ensures c.Valid() && HoldsThree(c) && c.cleanups == multiset{} && c.lost == old(c.lost)
    ensures c.files[1].count == 0
  {
    Linked(c.files, c.tree, c.queue, c.owner, c.cleanups, 1);
    c.OpenFileCleanup(1, 1, 0);
    OnlyOne(c.files, c.tree, c.queue);
    Linked(c.files, c.tree, c.queue, c.owner, c.cleanups, 1);
  }

  /**
    A run that leaks a descriptor: the file is opened, the cached answer expires, and
    stat() sees another inode before open() finds the first one again.
   */
  method RaceExample(junk: File) returns (c: Cache)
    ensures c.Valid() && c.lost == {3}
  {
    var req := Request("a", 0, 30, 1, true, true, false);
    c := OpenedOnce(junk, req);
    var os := System(Stat(8, false), Open(4, Stat(7, false)));
    assert Asked(true, c.files[1], req, os) == Opened(4, 7);
    var second := c.OpenCachedFile(req, os, junk, 2, true, 100);
  }

  /**
    A run that stores a descriptor twice: the file is opened, the cached answer
    expires, and stat() finds the inode number on a directory.  The first request may
    have given its cleanup back, and memory may be short.
   */
  method ConfusedExample(junk: File, released: bool, gotMemory: bool) returns (c: Cache)
    ensures !c.Valid()
    ensures released ==> 1 in c.files && c.files[1].isDir && c.files[1].fd == 3 && 3 !in c.owner
    ensures !released && gotMemory ==>
      1 in c.cleanups && 1 in c.files && 2 in c.files && c.files[1].fd == c.files[2].fd == 3 && c.files[2].isDir
    ensures !released && !gotMemory ==> 1 in c.cleanups && 1 in c.files && c.files[1].fd == 3 && 3 !in c.owner
  {
    var req := Request("a", 0, 30, 1, true, true, false);
    c := OpenedOnce(junk, req);
    if released {
      GivenBack(c);
    }
    Linked(c.files, c.tree, c.queue, c.owner, c.cleanups, 1);
    var os := System(Stat(7, true), OpenError(1));
    assert Asked(true, c.files[1], req, os) == SameDirectory;
    var second := c.OpenCachedFile(req, os, junk, 2, gotMemory, 100);
  }
}
