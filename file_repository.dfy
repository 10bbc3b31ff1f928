/**
  The file store: the buckets, files and bucket_admins tables and the SQL
  statements the repository runs on them, each table held as its rows in
  storage order. The list queries scan the rows the database returns for an
  `ORDER BY created_at ASC` query and append them one by one.
*/
module FileRepository {
  import opened Wrappers
  import Tables

  /** A storage bucket; no password hash means the bucket is public. */
  datatype Bucket = Bucket(id: string, passwordHash: Option<string>, createdAt: int, updatedAt: int)

  datatype File = File(
    id: int,
    stringId: string,
    bucketId: string,
    originalName: string,
    ownerId: Option<string>,
    size: int,
    contentType: string,
    s3Key: string,
    createdAt: int)

  datatype BucketAdmin = BucketAdmin(userId: string, bucketId: string, createdAt: int)

  function FileCreatedAt(f: File): int
  {
    f.createdAt
  }

  function AdminCreatedAt(a: BucketAdmin): int
  {
    a.createdAt
  }

  /** The largest file id in use, 0 for an empty table. */
  function MaxFileId(files: seq<File>): (m: int)
    ensures forall i :: 0 <= i < |files| ==> files[i].id <= m
  {
    if files == [] then 0
    else
      var rest := MaxFileId(files[1..]);
      if files[0].id > rest then files[0].id else rest
  }

  class LocalFileRepository {
    var buckets: seq<Bucket>
    var files: seq<File>
    var bucketAdmins: seq<BucketAdmin>

    /** A repository over a database file holding these rows. */
    constructor (buckets: seq<Bucket>, files: seq<File>, bucketAdmins: seq<BucketAdmin>)
      ensures this.buckets == buckets && this.files == files && this.bucketAdmins == bucketAdmins
    {
      this.buckets := buckets;
      this.files := files;
      this.bucketAdmins := bucketAdmins;
    }

    // Bucket operations

    /** `CreateBucket`: appends the row, or fails (a schema constraint may refuse it) and changes nothing. */
    method CreateBucket(bucket: Bucket) returns (ok: bool)
      modifies this
      ensures buckets == if ok then old(buckets) + [bucket] else old(buckets)
      ensures files == old(files) && bucketAdmins == old(bucketAdmins)
    {
      ok :| true;
      if ok {
        buckets := buckets + [bucket];
      }
    }

    /**
      `GetBucketByID`: a bucket with that id, or None when there is none. Its
      password hash is present exactly when the stored column is not NULL.
    */
    function GetBucketByID(bucketId: string): (r: Option<Bucket>)
      reads this
      ensures r.Some? ==> r.value in buckets && r.value.id == bucketId
      ensures r.None? <==> forall i :: 0 <= i < |buckets| ==> buckets[i].id != bucketId
    {
      Tables.First(buckets, (b: Bucket) => b.id == bucketId)
    }

    /**
      `UpdateBucket`: sets password_hash and updated_at on the rows with the
      bucket's id and nothing else; an absent id changes nothing.
    */
    method UpdateBucket(bucket: Bucket)
      modifies this
      ensures |buckets| == |old(buckets)|
      ensures forall i :: 0 <= i < |buckets| ==> (buckets[i] ==
        if old(buckets)[i].id == bucket.id
        then old(buckets)[i].(passwordHash := bucket.passwordHash, updatedAt := bucket.updatedAt)
        else old(buckets)[i])
      ensures files == old(files) && bucketAdmins == old(bucketAdmins)
      ensures old(GetBucketByID(bucket.id)).None? ==> buckets == old(buckets)
      ensures old(GetBucketByID(bucket.id)).Some? ==>
        GetBucketByID(bucket.id) == Some(old(GetBucketByID(bucket.id)).value.(passwordHash := bucket.passwordHash, updatedAt := bucket.updatedAt))
    {
      ghost var before := buckets;
      buckets := Tables.UpdateWhere(buckets, (b: Bucket) => b.id == bucket.id,
        (b: Bucket) => b.(passwordHash := bucket.passwordHash, updatedAt := bucket.updatedAt));
      UpdatedFirst(before, bucket);
    }

    /** The first row with an id, after the update, is the updated first row with that id. */
    static lemma {:induction false} UpdatedFirst(before: seq<Bucket>, bucket: Bucket)
      ensures var after := Tables.UpdateWhere(before, (b: Bucket) => b.id == bucket.id,
          (b: Bucket) => b.(passwordHash := bucket.passwordHash, updatedAt := bucket.updatedAt));
        var f0 := Tables.First(before, (b: Bucket) => b.id == bucket.id);
        var f1 := Tables.First(after, (b: Bucket) => b.id == bucket.id);
        && (f0.None? ==> after == before)
        && (f0.Some? ==> f1 == Some(f0.value.(passwordHash := bucket.passwordHash, updatedAt := bucket.updatedAt)))
    {
      var after := Tables.UpdateWhere(before, (b: Bucket) => b.id == bucket.id,
          (b: Bucket) => b.(passwordHash := bucket.passwordHash, updatedAt := bucket.updatedAt));
      if before != [] {
        UpdatedFirst(before[1..], bucket);
        var rest := Tables.UpdateWhere(before[1..], (b: Bucket) => b.id == bucket.id,
          (b: Bucket) => b.(passwordHash := bucket.passwordHash, updatedAt := bucket.updatedAt));
        assert after[1..] == rest;
      }
    }

    // File operations

    /**
      `CreateFile`: appends the row with an id the store assigns, one that no
      other row has, or fails and changes nothing. The caller's id is ignored.
    */
    method CreateFile(file: File) returns (ok: bool)
      modifies this
      ensures !ok ==> files == old(files)
      ensures ok ==> (
        && |files| == |old(files)| + 1
        && files[..|old(files)|] == old(files)
        && files[|old(files)|] == file.(id := files[|old(files)|].id)
        && forall i :: 0 <= i < |old(files)| ==> old(files)[i].id != files[|old(files)|].id)
      ensures buckets == old(buckets) && bucketAdmins == old(bucketAdmins)
    {
      ok :| true;
      if ok {
        // SQLite gives a new row the largest id in use plus one
        var id := MaxFileId(files) + 1;
        files := files + [file.(id := id)];
      }
    }

    /** `GetFileByID`: a file with that id, or None. */
    function GetFileByID(id: int): (r: Option<File>)
      reads this
      ensures r.Some? ==> r.value in files && r.value.id == id
      ensures r.None? <==> forall i :: 0 <= i < |files| ==> files[i].id != id
    {
      Tables.First(files, (f: File) => f.id == id)
    }

    /** `GetFileByStringID`: a file with that string id, or None. */
    function GetFileByStringID(stringId: string): (r: Option<File>)
      reads this
      ensures r.Some? ==> r.value in files && r.value.stringId == stringId
      ensures r.None? <==> forall i :: 0 <= i < |files| ==> files[i].stringId != stringId
    {
      Tables.First(files, (f: File) => f.stringId == stringId)
    }

    /**
      `GetFilesByBucketID`: exactly the bucket's files, each as often as it is
      stored, in nondecreasing created_at order.
    */
    method GetFilesByBucketID(bucketId: string) returns (result: seq<File>)
      ensures forall f :: multiset(result)[f] == if f.bucketId == bucketId then multiset(files)[f] else 0
      ensures forall i, j :: 0 <= i < j < |result| ==> result[i].createdAt <= result[j].createdAt
    {
      // the rows of SELECT ... WHERE bucket_id = ? ORDER BY created_at ASC
      var rows := Tables.OrderBy(Tables.Where(files, (f: File) => f.bucketId == bucketId), FileCreatedAt);
      result := Tables.Scan(rows);
    }

    /** `GetFileByBucketIDAndOriginalName`: a file matching both, or None. */
    function GetFileByBucketIDAndOriginalName(bucketId: string, originalName: string): (r: Option<File>)
      reads this
      ensures r.Some? ==> r.value in files && r.value.bucketId == bucketId && r.value.originalName == originalName
      ensures r.None? <==> forall i :: 0 <= i < |files| ==>
        files[i].bucketId != bucketId || files[i].originalName != originalName
    {
      Tables.First(files, (f: File) => f.bucketId == bucketId && f.originalName == originalName)
    }

    // Bucket admin operations

    /** `AddBucketAdmin`: appends the row, or fails and changes nothing. */
    method AddBucketAdmin(admin: BucketAdmin) returns (ok: bool)
      modifies this
      ensures bucketAdmins == if ok then old(bucketAdmins) + [admin] else old(bucketAdmins)
      ensures buckets == old(buckets) && files == old(files)
      ensures ok ==> IsBucketAdmin(admin.userId, admin.bucketId)
    {
      ok :| true;
      if ok {
        bucketAdmins := bucketAdmins + [admin];
        assert bucketAdmins[|bucketAdmins| - 1] == admin;
      }
    }

    /**
      `RemoveBucketAdmin`: deletes every (user, bucket) row and keeps every
      other row in order.
    */
    method RemoveBucketAdmin(userId: string, bucketId: string)
      modifies this
      ensures bucketAdmins == Tables.Where(old(bucketAdmins), (a: BucketAdmin) => !(a.userId == userId && a.bucketId == bucketId))
      ensures buckets == old(buckets) && files == old(files)
      ensures !IsBucketAdmin(userId, bucketId)
      ensures forall u, b :: (u != userId || b != bucketId) ==> IsBucketAdmin(u, b) == old(IsBucketAdmin(u, b))
    {
      ghost var before := bucketAdmins;
      bucketAdmins := Tables.Where(bucketAdmins, (a: BucketAdmin) => !(a.userId == userId && a.bucketId == bucketId));
      forall u, b | u != userId || b != bucketId
        ensures IsBucketAdmin(u, b) == AdminIn(before, u, b)
      {
        if AdminIn(before, u, b) {
          var k :| 0 <= k < |before| && before[k].userId == u && before[k].bucketId == b;
          assert multiset(bucketAdmins)[before[k]] > 0;
        }
      }
    }

    /**
      `GetBucketAdminsByBucketID`: exactly the bucket's admin rows, in
      nondecreasing created_at order (the first is the bucket's owner).
    */
    method GetBucketAdminsByBucketID(bucketId: string) returns (result: seq<BucketAdmin>)
      ensures forall a :: multiset(result)[a] == if a.bucketId == bucketId then multiset(bucketAdmins)[a] else 0
      ensures forall i, j :: 0 <= i < j < |result| ==> result[i].createdAt <= result[j].createdAt
    {
      var selected := Tables.Where(bucketAdmins, (a: BucketAdmin) => a.bucketId == bucketId);
      var rows := Tables.OrderBy(selected, AdminCreatedAt);
      result := Tables.Scan(rows);
    }

    /** `GetBucketAdminsByUserID`: exactly the user's admin rows, in nondecreasing created_at order. */
    method GetBucketAdminsByUserID(userId: string) returns (result: seq<BucketAdmin>)
      ensures forall a :: multiset(result)[a] == if a.userId == userId then multiset(bucketAdmins)[a] else 0
      ensures forall i, j :: 0 <= i < j < |result| ==> result[i].createdAt <= result[j].createdAt
    {
      var selected := Tables.Where(bucketAdmins, (a: BucketAdmin) => a.userId == userId);
      var rows := Tables.OrderBy(selected, AdminCreatedAt);
      result := Tables.Scan(rows);
    }

    /** `IsBucketAdmin`: whether a (user, bucket) row exists. */
    function IsBucketAdmin(userId: string, bucketId: string): (r: bool)
      reads this
      ensures r <==> AdminIn(bucketAdmins, userId, bucketId)
    {
      Tables.First(bucketAdmins, (a: BucketAdmin) => a.userId == userId && a.bucketId == bucketId).Some?
    }
  }

  ghost predicate AdminIn(admins: seq<BucketAdmin>, userId: string, bucketId: string)
  {
    exists i :: 0 <= i < |admins| && admins[i].userId == userId && admins[i].bucketId == bucketId
  }
}
