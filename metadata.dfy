/**
 * The in-memory metadata store of the server (src/metadata.c, types and limits
 * from src/metadata.h): a fixed table of at most 100 users, each with a fixed
 * array of at most 50 `(filename, size)` records and the counters
 * `quota_used` and `quota_max`.
 *
 * `Store` keeps the C layout: `users` is the `users[MAX_USERS]` array (one
 * `UserSlot` per `user_t`, without its file array) and `files` is the
 * two-dimensional array of all `files[MAX_FILES_PER_USER]` arrays, row u
 * belonging to user u. The ghost field `View` is the abstract store, one
 * `User` value per live slot; `Valid()` ties the two and carries the store's
 * invariant: `quota_used` is the sum of the file sizes and never exceeds
 * `quota_max`.
 */
module Metadata {
  import opened Wrappers
  import opened CStrings

  const MaxUsers: nat := 100
  const MaxFilesPerUser: nat := 50
  const DefaultQuota: nat := 1024 * 1024
  /** `sizeof(filename) - 1` and `sizeof(username) - 1`: the longest names the records hold. */
  const MaxFilename: nat := 255
  const MaxUsername: nat := 63

  /** One more than the largest `size_t` (64 bits). */
  const SizeLimit: nat := 0x1_0000_0000_0000_0000

  type SizeT = x: int | 0 <= x < 0x1_0000_0000_0000_0000

  /** `file_t` without its lock. */
  datatype FileRecord = FileRecord(filename: string, size: SizeT)

  /** A `user_t` as the store sees it: its name, its live file records and its counters. */
  datatype User = User(username: string, files: seq<FileRecord>, quotaUsed: SizeT, quotaMax: SizeT)

  /** The scalar fields of a `user_t`; its file records live in `Store.files`. */
  datatype UserSlot = UserSlot(username: string, numFiles: int, quotaUsed: SizeT, quotaMax: SizeT)

  /** The sum of the sizes of the records. */
  function TotalSize(files: seq<FileRecord>): nat {
    if files == [] then 0 else TotalSize(files[..|files| - 1]) + files[|files| - 1].size
  }

  /** The invariant of one user: bounded records, and the quota counter agrees with them. */
  ghost predicate UserOk(u: User) {
    && |u.username| <= MaxUsername
    && |u.files| <= MaxFilesPerUser
    && u.quotaUsed == TotalSize(u.files) <= u.quotaMax
    && (forall k | 0 <= k < |u.files| :: |u.files[k].filename| <= MaxFilename)
  }

  function SlotOf(u: User): UserSlot {
    UserSlot(u.username, |u.files|, u.quotaUsed, u.quotaMax)
  }

  /** The index `metadata_get_user` finds: the first user with that name. */
  function UserIndex(users: seq<User>, name: string): (r: Option<nat>)
    ensures r.Some? ==> r.value < |users| && users[r.value].username == name
    ensures r.Some? ==> forall k | 0 <= k < r.value :: users[k].username != name
    ensures r.None? <==> forall k | 0 <= k < |users| :: users[k].username != name
  {
    if users == [] then None
    else if users[0].username == name then Some(0)
    else match UserIndex(users[1..], name)
      case None => None
      case Some(k) => Some(k + 1)
  }

  /** The index `metadata_remove_file` finds: the first record with that name. */
  function FileIndex(files: seq<FileRecord>, filename: string): (r: Option<nat>)
    ensures r.Some? ==> r.value < |files| && files[r.value].filename == filename
    ensures r.Some? ==> forall k | 0 <= k < r.value :: files[k].filename != filename
    ensures r.None? <==> forall k | 0 <= k < |files| :: files[k].filename != filename
  {
    if files == [] then None
    else if files[0].filename == filename then Some(0)
    else match FileIndex(files[1..], filename)
      case None => None
      case Some(k) => Some(k + 1)
  }

  // ---------------------------------------------------------------------------
  // The quota check
  // ---------------------------------------------------------------------------

  /**
   * `metadata_check_quota` as written: `quota_used + add_size` is computed in
   * `size_t`, so the sum wraps modulo 2^64 before it is compared.
   */
  function QuotaCheckAsWritten(users: seq<User>, name: string, add: SizeT): (r: int)
    ensures r == 0 || r == 1
    ensures UserIndex(users, name).None? ==> r == 0
  {
    match UserIndex(users, name)
    case None => 0
    case Some(i) => if (users[i].quotaUsed + add) % SizeLimit <= users[i].quotaMax then 1 else 0
  }

  /** `metadata_check_quota` with the sum compared without wrapping, as the quota is meant. */
  function QuotaCheck(users: seq<User>, name: string, add: SizeT): (r: int)
    ensures r == 0 || r == 1
    ensures UserIndex(users, name).None? ==> r == 0
  {
    match UserIndex(users, name)
    case None => 0
    case Some(i) => if users[i].quotaUsed + add <= users[i].quotaMax then 1 else 0
  }

  /** For a user that keeps the invariant, the check grants exactly the room left in the quota. */
  lemma QuotaCheckMeansRoom(users: seq<User>, name: string, add: SizeT)
    requires forall k | 0 <= k < |users| :: UserOk(users[k])
    ensures QuotaCheck(users, name, add) == 1 <==>
      exists i | 0 <= i < |users| :: UserIndex(users, name) == Some(i) &&
        TotalSize(users[i].files) + add <= users[i].quotaMax
  {
    if UserIndex(users, name).Some? {
      var i := UserIndex(users, name).value;
      assert UserOk(users[i]);
    }
  }

  /** The two checks agree whenever the sum fits in a `size_t`. */
  lemma QuotaCheckAgreesWithoutWrap(users: seq<User>, name: string, add: SizeT)
    requires UserIndex(users, name).Some?
    requires users[UserIndex(users, name).value].quotaUsed + add < SizeLimit
    ensures QuotaCheckAsWritten(users, name, add) == QuotaCheck(users, name, add)
  {
    var i := UserIndex(users, name).value;
    assert (users[i].quotaUsed + add) % SizeLimit == users[i].quotaUsed + add;
  }

  /**
   * The wrap-around lets an oversized file through: a user with one byte stored
   * asks for 2^64 - 1 more bytes, the wrapped sum is 0 and the check says yes.
   */
  lemma QuotaWrapAcceptsOversize()
    ensures var users := [User("alice", [FileRecord("a.txt", 1)], 1, DefaultQuota)];
      && UserOk(users[0])
      && QuotaCheckAsWritten(users, "alice", SizeLimit - 1) == 1
      && QuotaCheck(users, "alice", SizeLimit - 1) == 0
  {
    var users := [User("alice", [FileRecord("a.txt", 1)], 1, DefaultQuota)];
    assert UserIndex(users, "alice") == Some(0);
    assert [FileRecord("a.txt", 1)][..0] == [];
    assert (1 + (SizeLimit - 1)) % SizeLimit == 0;
  }

  /** With the default quota of 1 MB, no file larger than it is ever accepted (2,000,000 bytes, say). */
  lemma QuotaCheckRejectsOverDefault(users: seq<User>, name: string, add: SizeT)
    requires forall k | 0 <= k < |users| :: users[k].quotaMax == DefaultQuota
    requires add > DefaultQuota
    ensures QuotaCheck(users, name, add) == 0
  {
    if UserIndex(users, name).Some? {
      assert users[UserIndex(users, name).value].quotaMax == DefaultQuota;
    }
  }

  // ---------------------------------------------------------------------------
  // Adding and removing records
  // ---------------------------------------------------------------------------

  /** Sizes add up over a concatenation. */
  lemma {:induction false} TotalSizeConcat(a: seq<FileRecord>, b: seq<FileRecord>)
    ensures TotalSize(a + b) == TotalSize(a) + TotalSize(b)
    decreases |b|
  {
    if b != [] {
      var b' := b[..|b| - 1];
      assert (a + b)[..|a + b| - 1] == a + b';
      assert (a + b)[|a + b| - 1] == b[|b| - 1];
      TotalSizeConcat(a, b');
    } else {
      assert a + b == a;
    }
  }

  /** The records without the one at index k, the others in their order. */
  function RemoveAt<T>(s: seq<T>, k: nat): (r: seq<T>)
    requires k < |s|
    ensures |r| == |s| - 1
    ensures forall j | 0 <= j < |r| :: r[j] == if j < k then s[j] else s[j + 1]
  {
    s[..k] + s[k + 1..]
  }

  /** Removing a record takes away exactly its size. */
  lemma TotalSizeRemoveAt(files: seq<FileRecord>, k: nat)
    requires k < |files|
    ensures TotalSize(files) == TotalSize(RemoveAt(files, k)) + files[k].size
  {
    var before, after := RemoveAtSplit(files, k);
    TotalSizeAround(before, files[k], after);
    TotalSizeConcat(before, after);
  }

  /** The pieces either side of index k: what removal keeps. */
  lemma RemoveAtSplit<T>(s: seq<T>, k: nat) returns (before: seq<T>, after: seq<T>)
    requires k < |s|
    ensures s == before + [s[k]] + after
    ensures RemoveAt(s, k) == before + after
  {
    before, after := s[..k], s[k + 1..];
    assert s == before + [s[k]] + after;
  }

  /** The total of records around one is the totals of both sides plus its size. */
  lemma TotalSizeAround(before: seq<FileRecord>, f: FileRecord, after: seq<FileRecord>)
    ensures TotalSize(before + [f] + after) == TotalSize(before) + f.size + TotalSize(after)
  {
    var bf := before + [f];
    TotalSizeConcat(bf, after);
    assert bf[..|bf| - 1] == before;
  }

  /** A record's size never exceeds the total. */
  lemma TotalSizeCovers(files: seq<FileRecord>, k: nat)
    requires k < |files|
    ensures files[k].size <= TotalSize(files)
  {
    TotalSizeRemoveAt(files, k);
  }

  /** The user after `metadata_add_file` has appended a record. */
  function WithFile(u: User, f: FileRecord): (r: User)
    requires u.quotaUsed + f.size < SizeLimit
  {
    User(u.username, u.files + [f], u.quotaUsed + f.size, u.quotaMax)
  }

  /** The user after `metadata_remove_file` has removed the record at index k. */
  function WithoutFile(u: User, k: nat): (r: User)
    requires k < |u.files| && u.files[k].size <= u.quotaUsed
  {
    User(u.username, RemoveAt(u.files, k), u.quotaUsed - u.files[k].size, u.quotaMax)
  }

  /** Appending a record that fits the quota and the record array keeps the invariant. */
  lemma WithFileOk(u: User, f: FileRecord)
    requires UserOk(u) && |u.files| < MaxFilesPerUser && |f.filename| <= MaxFilename
    requires u.quotaUsed + f.size <= u.quotaMax
    ensures UserOk(WithFile(u, f))
    ensures WithFile(u, f).files[..|u.files|] == u.files
  {
    var r := WithFile(u, f);
    assert r.files[..|r.files| - 1] == u.files;
  }

  /** Removing a record keeps the invariant. */
  lemma WithoutFileOk(u: User, k: nat)
    requires UserOk(u) && k < |u.files|
    ensures u.files[k].size <= u.quotaUsed
    ensures UserOk(WithoutFile(u, k))
  {
    TotalSizeCovers(u.files, k);
    TotalSizeRemoveAt(u.files, k);
  }

  // ---------------------------------------------------------------------------
  // The listing
  // ---------------------------------------------------------------------------

  const NotFoundMessage: string := "ERROR: User not found\n"
  const NoFilesMessage: string := "No files\n"

  /** `snprintf(buf, sizeof(buf), "%s %zu\n", filename, size)` before truncation. */
  function FileLine(f: FileRecord): string {
    f.filename + " " + Decimal(f.size) + "\n"
  }

  /** The lines of the records, one per record in array order. */
  function Lines(files: seq<FileRecord>): string {
    if files == [] then "" else Lines(files[..|files| - 1]) + FileLine(files[|files| - 1])
  }

  /** The full text `metadata_list_files` would produce with an unbounded output buffer. */
  function Listing(users: seq<User>, name: string): (s: string)
    ensures UserIndex(users, name).None? ==> s == NotFoundMessage
  {
    match UserIndex(users, name)
    case None => NotFoundMessage
    case Some(i) => if users[i].files == [] then NoFilesMessage else Lines(users[i].files)
  }

  /** A record's line never fills the 512-byte buffer, so `snprintf` never truncates it. */
  lemma FileLineFits(f: FileRecord)
    requires |f.filename| <= MaxFilename
    ensures |FileLine(f)| < 512
  {
    DecimalOf64Bits(f.size);
  }

  /** The lines of two runs of records are the lines of the first run, then those of the second. */
  lemma {:induction false} LinesConcat(a: seq<FileRecord>, b: seq<FileRecord>)
    ensures Lines(a + b) == Lines(a) + Lines(b)
    decreases |b|
  {
    if b != [] {
      var b' := b[..|b| - 1];
      assert (a + b)[..|a + b| - 1] == a + b';
      assert (a + b)[|a + b| - 1] == b[|b| - 1];
      LinesConcat(a, b');
    } else {
      assert a + b == a;
    }
  }

  /** In the listing, each record's line sits between the lines of the records around it. */
  lemma LinesInOrder(before: seq<FileRecord>, f: FileRecord, after: seq<FileRecord>)
    ensures Lines(before + [f] + after) == Lines(before) + FileLine(f) + Lines(after)
  {
    var bf := before + [f];
    LinesConcat(bf, after);
    assert bf[..|bf| - 1] == before;
  }

  /**
   * One pass of the loop of `metadata_list_files`: the line of the next record,
   * through the 512-byte `snprintf` buffer and the bounded `strncat`, extends
   * the output to the first cap characters of the longer listing.
   */
  lemma ListingStep(done: seq<FileRecord>, f: FileRecord, cap: nat)
    requires |f.filename| <= MaxFilename
    ensures var out := Take(Lines(done), cap);
      StrNCat(out, Take(FileLine(f), 511), cap - |out|) == Take(Lines(done + [f]), cap)
  {
    FileLineFits(f);
    BoundedAppend(Lines(done), FileLine(f), 511, cap);
    LinesSnoc(done, f);
  }

  /** One more record adds its line at the end. */
  lemma LinesSnoc(done: seq<FileRecord>, f: FileRecord)
    ensures Lines(done + [f]) == Lines(done) + FileLine(f)
  {
    assert (done + [f])[..|done|] == done;
  }

  /**
   * One round of the listing loop: the record is formatted into the
   * 512-byte buffer and appended with the bounded `strncat`.
   */
  method AppendLine(output: string, f: FileRecord, ghost done: seq<FileRecord>, cap: nat) returns (extended: string)
    requires |f.filename| <= MaxFilename && output == Take(Lines(done), cap)
    ensures extended == Take(Lines(done + [f]), cap)
  {
    var buf := Take(FileLine(f), 511);
    ListingStep(done, f, cap);
    extended := StrNCat(output, buf, cap - |output|);
  }

  /** A record's line shows its name and a decimal size that reads back as its size. */
  lemma FileLineShowsRecord(f: FileRecord)
    ensures var line := FileLine(f); var digits := line[|f.filename| + 1..|line| - 1];
      && line[..|f.filename|] == f.filename && line[|f.filename|] == ' ' && line[|line| - 1] == '\n'
      && AllDigits(digits) && DecimalValue(digits) == f.size
  {
    var line := FileLine(f);
    assert line[|f.filename| + 1..|line| - 1] == Decimal(f.size);
    DecimalRoundTrip(f.size);
  }

  // ---------------------------------------------------------------------------
  // The store
  // ---------------------------------------------------------------------------

  class Store {
    var users: array<UserSlot>
    var files: array2<FileRecord>
    var numUsers: int
    ghost var View: seq<User>

    ghost predicate Valid()
      reads this, users, files
    {
      && users.Length == MaxUsers
      && files.Length0 == MaxUsers && files.Length1 == MaxFilesPerUser
      && 0 <= numUsers <= MaxUsers && |View| == numUsers
      && (forall u | 0 <= u < numUsers :: RowOk(u))
    }

    /**
     * Slot u and row u of the arrays hold user u of the view, which keeps the
     * invariant and has the default quota.
     */
    ghost predicate RowOk(u: int)
      reads this, users, files
    {
      && 0 <= u < |View| && u < users.Length && u < files.Length0
      && UserOk(View[u]) && View[u].quotaMax == DefaultQuota
      && users[u] == SlotOf(View[u])
      && |View[u].files| <= files.Length1
      && (forall j | 0 <= j < |View[u].files| :: files[u, j] == View[u].files[j])
    }

    /** What Valid() says about the slot and the row of one user. */
    lemma WithinRow(i: nat)
      requires Valid() && i < numUsers
      ensures RowOk(i)
      ensures UserOk(View[i]) && users[i] == SlotOf(View[i])
      ensures forall t | 0 <= t < |View[i].files| :: files[i, t] == View[i].files[t]
    {
    }

    /** `metadata_init`: an empty store. */
    constructor ()
      ensures Valid() && fresh(users) && fresh(files)
      ensures View == []
    {
      users := new UserSlot[MaxUsers](_ => UserSlot("", 0, 0, 0));
      files := new FileRecord[MaxUsers, MaxFilesPerUser]((_, _) => FileRecord("", 0));
      numUsers := 0;
      View := [];
    }

    /**
     * `metadata_add_user`: -1 when the table is full or the name does not fit
     * in 63 characters; otherwise a user with no files, nothing used and the
     * default quota is appended. Names already present are not rejected.
     */
    method AddUser(name: string) returns (r: int)
      requires Valid()
      modifies this, users
      ensures Valid() && users == old(users) && files == old(files)
      ensures r == (if old(numUsers) >= MaxUsers || |name| >= 64 then -1 else 0)
      ensures View == if r == 0 then old(View) + [User(name, [], 0, DefaultQuota)] else old(View)
    {
      if numUsers >= MaxUsers || |name| >= 64 {
        return -1;
      }
      users[numUsers] := UserSlot(Take(name, MaxUsername), 0, 0, DefaultQuota);
      View := View + [User(name, [], 0, DefaultQuota)];
      numUsers := numUsers + 1;
      forall v | 0 <= v < numUsers
        ensures RowOk(v)
      {
        if v < numUsers - 1 {
          assert old(RowOk(v));
        }
      }
      return 0;
    }

    /** `metadata_get_user`: the first slot holding that name, by a linear search. */
    method GetUser(name: string) returns (found: Option<nat>)
      requires Valid()
      ensures found == UserIndex(View, name)
      ensures found.Some? ==> found.value < numUsers && users[found.value].username == name
    {
      var i := 0;
      while i < numUsers
        invariant 0 <= i <= numUsers
        invariant forall k | 0 <= k < i :: View[k].username != name
      {
        assert RowOk(i);
        if users[i].username == name {
          UserIndexFirst(View, name, i);
          return Some(i);
        }
        i := i + 1;
      }
      return None;
    }

    /** `metadata_check_quota`, comparing the true sum: 1 when the file fits, 0 otherwise or for an unknown user. */
    method CheckQuota(name: string, add: SizeT) returns (r: int)
      requires Valid()
      ensures r == QuotaCheck(View, name, add)
    {
      var found := GetUser(name);
      if found.None? {
        return 0;
      }
      WithinRow(found.value);
      var u := users[found.value];
      r := if u.quotaUsed + add <= u.quotaMax then 1 else 0;
    }

    /**
     * `metadata_add_file`: -1 for an unknown user, a full record array or a
     * file over the quota; otherwise the record (its name cut to 255
     * characters) goes at index `num_files` and its size is added to
     * `quota_used`. Other users are untouched; an existing name is not checked.
     */
    method AddFile(name: string, filename: string, size: SizeT) returns (r: int)
      requires Valid()
      modifies this`View, users, files
      ensures Valid() && numUsers == old(numUsers)
      ensures var i := UserIndex(old(View), name);
        r == (if i.None? || |old(View)[i.value].files| >= MaxFilesPerUser
              || QuotaCheck(old(View), name, size) != 1 then -1 else 0)
      ensures r != 0 ==> View == old(View)
      ensures r == 0 ==> var i := UserIndex(old(View), name).value;
        old(View)[i].quotaUsed + size <= old(View)[i].quotaMax &&
        View == old(View)[i := WithFile(old(View)[i], FileRecord(Take(filename, MaxFilename), size))]
    {
      var found := GetUser(name);
      if found.None? {
        return -1;
      }
      var i := found.value;
      WithinRow(i);
      if users[i].numFiles >= MaxFilesPerUser {
        return -1;
      }
      var ok := CheckQuota(name, size);
      if ok != 1 {
        return -1;
      }
      var f := FileRecord(Take(filename, MaxFilename), size);
      AppendRecord(i, f);
      return 0;
    }

    /**
     * The storing half of `metadata_add_file`: the record goes at index
     * `num_files` of user i and its size is added to `quota_used`.
     */
    method AppendRecord(i: nat, f: FileRecord)
      requires Valid() && i < numUsers && |View[i].files| < MaxFilesPerUser
      requires View[i].quotaUsed + f.size <= View[i].quotaMax && |f.filename| <= MaxFilename
      modifies this`View, users, files
      ensures Valid() && numUsers == old(numUsers)
      ensures View == old(View)[i := WithFile(old(View)[i], f)]
    {
      WithinRow(i);
      var u := users[i];
      ghost var was := View[i];
      WithFileOk(was, f);
      files[i, u.numFiles] := f;
      users[i] := UserSlot(u.username, u.numFiles + 1, u.quotaUsed + f.size, u.quotaMax);
      View := View[i := WithFile(was, f)];
      assert RowOk(i) by {
        forall j | 0 <= j < |View[i].files|
          ensures files[i, j] == View[i].files[j]
        {
          if j < |was.files| {
            assert files[i, j] == old(files[i, j]);
          }
        }
      }
      forall v | 0 <= v < numUsers && v != i
        ensures RowOk(v)
      {
        assert old(RowOk(v));
        forall j | 0 <= j < |View[v].files|
          ensures files[v, j] == View[v].files[j]
        {
          assert files[v, j] == old(files[v, j]);
        }
      }
    }

    /**
     * `metadata_remove_file`: -1 for an unknown user or a name no record has;
     * otherwise the first record with that name is deleted by shifting the
     * later ones down, and its size is taken off `quota_used`.
     */
    method RemoveFile(name: string, filename: string) returns (r: int)
      requires Valid()
      modifies this`View, users, files
      ensures Valid() && numUsers == old(numUsers)
      ensures var i := UserIndex(old(View), name);
        r == (if i.None? || FileIndex(old(View)[i.value].files, filename).None? then -1 else 0)
      ensures r != 0 ==> View == old(View)
      ensures r == 0 ==> var i := UserIndex(old(View), name).value;
        var k := FileIndex(old(View)[i].files, filename).value;
        old(View)[i].files[k].size <= old(View)[i].quotaUsed &&
        View == old(View)[i := WithoutFile(old(View)[i], k)]
    {
      var found := GetUser(name);
      if found.None? {
        return -1;
      }
      var i := found.value;
      WithinRow(i);
      ghost var was := View[i];
      var n := users[i].numFiles;
      var at := FindFile(i, filename);
      if at.None? {
        return -1;
      }
      var k := at.value;
      DeleteRecord(i, k);
      return 0;
    }

    /**
     * The deleting half of `metadata_remove_file`: record k of user i goes,
     * its size comes off `quota_used`, and the later records shift down.
     */
    method DeleteRecord(i: nat, k: nat)
      requires Valid() && i < numUsers && k < |View[i].files|
      modifies this`View, users, files
      ensures Valid() && numUsers == old(numUsers)
      ensures old(View)[i].files[k].size <= old(View)[i].quotaUsed
      ensures View == old(View)[i := WithoutFile(old(View)[i], k)]
    {
      WithinRow(i);
      ghost var was := View[i];
      var n := users[i].numFiles;
      WithoutFileOk(was, k);
      assert FilesRow(i, n) == was.files;
      var u := users[i];
      users[i] := UserSlot(u.username, u.numFiles - 1, u.quotaUsed - files[i, k].size, u.quotaMax);
      ShiftDown(i, k, n);
      View := View[i := WithoutFile(was, k)];
      assert RowOk(i);
      forall v | 0 <= v < numUsers && v != i
        ensures RowOk(v)
      {
        assert old(RowOk(v));
        forall j | 0 <= j < |View[v].files|
          ensures files[v, j] == View[v].files[j]
        {
          assert files[v, j] == old(files[v, j]);
        }
      }
    }

    /** The search loop of `metadata_remove_file`: the first record of user i with that name. */
    method FindFile(i: nat, filename: string) returns (at: Option<nat>)
      requires Valid() && i < numUsers
      ensures at == FileIndex(View[i].files, filename)
    {
      WithinRow(i);
      var n := users[i].numFiles;
      var k := 0;
      while k < n
        invariant 0 <= k <= n
        invariant forall t | 0 <= t < k :: View[i].files[t].filename != filename
      {
        if files[i, k].filename == filename {
          FileIndexFirst(View[i].files, filename, k);
          return Some(k);
        }
        k := k + 1;
      }
      return None;
    }

    /** The shifting loop of `metadata_remove_file`: row i loses column k, later columns move down one. */
    method ShiftDown(i: nat, k: nat, n: nat)
      requires i < files.Length0 && k < n <= files.Length1
      modifies files
      ensures forall t | 0 <= t < n - 1 :: files[i, t] == RemoveAt(old(FilesRow(i, n)), k)[t]
      ensures forall v, t | 0 <= v < files.Length0 && 0 <= t < files.Length1 && (v != i || t >= n - 1) ::
        files[v, t] == old(files[v, t])
    {
      ghost var row := FilesRow(i, n);
      var j := k;
      while j < n - 1
        invariant k <= j <= n - 1
        invariant forall t | 0 <= t < j :: files[i, t] == RemoveAt(row, k)[t]
        invariant forall t | j <= t < n :: files[i, t] == row[t]
        invariant forall v, t | 0 <= v < files.Length0 && 0 <= t < files.Length1 && (v != i || t >= n - 1) ::
          files[v, t] == old(files[v, t])
      {
        files[i, j] := files[i, j + 1];
        j := j + 1;
      }
    }

    /** The first n records of row i of the file array. */
    ghost function FilesRow(i: nat, n: nat): (row: seq<FileRecord>)
      requires i < files.Length0 && n <= files.Length1
      reads this, files
      ensures |row| == n && forall t | 0 <= t < n :: row[t] == files[i, t]
    {
      var a := files;
      seq(n, t requires 0 <= t < n reads a => a[i, t])
    }

    /**
     * `metadata_list_files` into a buffer of outSize bytes: the listing of the
     * user's records (or "No files\n", or the not-found message), cut to the
     * outSize - 1 characters that fit before the NUL.
     */
    method ListFiles(name: string, outSize: SizeT) returns (output: string)
      requires Valid() && outSize >= 1
      ensures output == Take(Listing(View, name), outSize - 1)
    {
      var found := GetUser(name);
      if found.None? {
        output := Take(NotFoundMessage, outSize - 1);
        return;
      }
      var i := found.value;
      WithinRow(i);
      ghost var fs := View[i].files;
      var n := users[i].numFiles;
      output := "";
      if n == 0 {
        assert Listing(View, name) == NoFilesMessage;
        output := StrNCat(output, NoFilesMessage, outSize - |output| - 1);
        return;
      }
      assert Listing(View, name) == Lines(fs);
      assert FilesRow(i, n) == fs;
      output := AppendLines(i, n, outSize - 1);
    }

    /**
     * The loop of `metadata_list_files` over the n records of row i: each
     * record is formatted into the 512-byte buffer and appended with a
     * `strncat` bounded by the room left in an output of cap characters.
     */
    method AppendLines(i: nat, n: nat, cap: nat) returns (output: string)
      requires i < files.Length0 && n <= files.Length1
      requires forall t | 0 <= t < n :: |files[i, t].filename| <= MaxFilename
      ensures output == Take(Lines(FilesRow(i, n)), cap)
    {
      ghost var done: seq<FileRecord> := [];
      output := "";
      var k := 0;
      while k < n
        invariant 0 <= k <= n && |done| == k
        invariant forall t | 0 <= t < k :: done[t] == files[i, t]
        invariant output == Take(Lines(done), cap)
      {
        var f := files[i, k];
        output := AppendLine(output, f, done, cap);
        done := done + [f];
        k := k + 1;
      }
      assert done == FilesRow(i, n);
    }
  }

  /** A slot whose name matches, with none before it, is the one UserIndex finds. */
  lemma UserIndexFirst(users: seq<User>, name: string, i: nat)
    requires i < |users| && users[i].username == name
    requires forall k | 0 <= k < i :: users[k].username != name
    ensures UserIndex(users, name) == Some(i)
  {
  }

  /** A record whose name matches, with none before it, is the one FileIndex finds. */
  lemma FileIndexFirst(files: seq<FileRecord>, filename: string, k: nat)
    requires k < |files| && files[k].filename == filename
    requires forall t | 0 <= t < k :: files[t].filename != filename
    ensures FileIndex(files, filename) == Some(k)
  {
  }
}
