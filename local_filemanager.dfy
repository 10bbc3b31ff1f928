/**
  The S3-backed file manager. A storage id names a folder of objects: each
  uploaded file is stored under the key "<storage id>/<file name>" in one
  configured S3 bucket. Upload refuses a storage id whose folder is already
  in use and draws a random id when none is given; List reports a folder's
  files; Download fetches one. The random source and the upload's
  transaction id are parameters.
*/
module LocalFilemanager {
  import opened Wrappers
  import Text
  import KeyOrder
  import S3

  /** The alphabet of generated storage ids. */
  const LowerLetters: string := "abcdefghijklmnopqrstuvwxyz"
  const UpperLetters: string := "ABCDEFGHIJKLMNOPQRSTUVWXYZ"
  const DecimalDigits: string := "0123456789"

  /** The 62 characters storage ids are drawn from. */
  const Letters: string := LowerLetters + UpperLetters + DecimalDigits

  type LetterIndex = x: int | 0 <= x < 62

  /** n consecutive characters from `first` on. */
  function Run(first: char, n: nat): (s: string)
    requires first as int + n <= 0xD800
    ensures |s| == n
    ensures forall i :: 0 <= i < n ==> s[i] == (first as int + i) as char
  {
    seq(n, i requires 0 <= i < n => (first as int + i) as char)
  }

  lemma LowerRun()
    ensures LowerLetters == Run('a', 26)
  {
  }

  lemma UpperRun()
    ensures UpperLetters == Run('A', 26)
  {
  }

  lemma DigitRun()
    ensures DecimalDigits == Run('0', 10)
  {
  }

  /** Every character of the alphabet is an ASCII letter or digit. */
  lemma LettersAlphanumeric()
    ensures |Letters| == 62
    ensures forall k :: 0 <= k < 62 ==> IsAlphanumeric(Letters[k])
  {
    LowerRun();
    UpperRun();
    DigitRun();
    forall k | 0 <= k < 62
      ensures IsAlphanumeric(Letters[k])
    {
      if k < 26 {
        assert Letters[k] == LowerLetters[k];
      } else if k < 52 {
        assert Letters[k] == UpperLetters[k - 26];
      } else {
        assert Letters[k] == DecimalDigits[k - 52];
      }
    }
  }

  const DefaultIdLength: int := 10

  /**
    `parseLength`: the setting's integer value, white space around it
    ignored, when it parses and is positive; otherwise the default.
  */
  function ParseLength(val: string, def: int): (r: int)
    ensures r == def || r > 0
    ensures r != def ==> Text.Atoi(Text.TrimSpace(val)) == Some(r)
    ensures (var a := Text.Atoi(Text.TrimSpace(val)); a.Some? && a.value > 0 ==> r == a.value)
  {
    match Text.Atoi(Text.TrimSpace(val))
    case Some(i) => if i <= 0 then def else i
    case None => def
  }

  /** Every positive 64-bit value written in decimal is read back. */
  lemma ParseLengthItoa(n: nat, def: int)
    requires 0 < n <= Text.MaxInt
    ensures ParseLength(Text.Itoa(n), def) == n
  {
    Text.TrimSpaceDigits(Text.Itoa(n));
    Text.AtoiItoa(n);
  }

  /** The length of a generated id: the configured length, or 10 when that is not positive. */
  function IdLength(configured: int): (n: nat)
    ensures n > 0
    ensures configured > 0 ==> n == configured
  {
    if configured <= 0 then 10 else configured
  }

  /** The id drawn from `random`, the i-th draw picking the i-th character. */
  function GeneratedId(length: nat, random: nat -> LetterIndex): (id: string)
    ensures |id| == length
    ensures forall i :: 0 <= i < length ==> id[i] == Letters[random(i)]
  {
    seq(length, i requires 0 <= i < length => Letters[random(i)])
  }

  predicate IsAlphanumeric(c: char)
  {
    'a' <= c <= 'z' || 'A' <= c <= 'Z' || '0' <= c <= '9'
  }

  /** A generated id is a non-empty run of ASCII letters and digits, so it never contains '/'. */
  lemma GeneratedIdAlphanumeric(configured: int, random: nat -> LetterIndex)
    ensures var id := GeneratedId(IdLength(configured), random);
      id != "" && forall i :: 0 <= i < |id| ==> IsAlphanumeric(id[i]) && id[i] != '/'
  {
    LettersAlphanumeric();
  }

  datatype UploadObject = UploadObject(name: string, body: seq<byte>, size: int, contentType: string)

  datatype FileInfo = FileInfo(fileName: string, key: string, size: int, contentType: string)

  datatype UploadResult = UploadResult(
    transactionId: string,
    storageId: string,
    files: seq<FileInfo>,
    totalSize: int,
    success: bool,
    error: string)

  datatype BucketMetadata = BucketMetadata(storageId: string, files: seq<FileInfo>, totalSize: int)

  datatype DownloadResult = DownloadResult(body: seq<byte>, contentType: string, contentLength: int, downloadedFile: string)

  function ObjectKey(storageId: string, name: string): string
  {
    storageId + "/" + name
  }

  /** Within one storage id, distinct names give distinct keys. */
  lemma ObjectKeyInjective(storageId: string, a: string, b: string)
    requires ObjectKey(storageId, a) == ObjectKey(storageId, b)
    ensures a == b
  {
    assert a == ObjectKey(storageId, a)[|storageId| + 1..];
    assert b == ObjectKey(storageId, b)[|storageId| + 1..];
  }

  /** The text of a store error as the file manager reports it. */
  function ErrorText(e: S3.S3Error): string
  {
    match e
    case NoSuchBucket => "NoSuchBucket"
    case NoSuchKey => "NoSuchKey"
    case RequestFailed => "request failed"
  }

  /** The store's objects after putting each upload in turn under the storage id; a later file of the same name wins. */
  function PutAll(objects: map<string, S3.Object>, storageId: string, uploads: seq<UploadObject>): map<string, S3.Object>
  {
    if uploads == [] then objects
    else
      var last := uploads[|uploads| - 1];
      PutAll(objects, storageId, uploads[..|uploads| - 1])[ObjectKey(storageId, last.name) := S3.Object(last.body, last.contentType)]
  }

  /** The file infos an upload reports: one per upload, in order, with the declared size. */
  function UploadedInfos(storageId: string, uploads: seq<UploadObject>): (r: seq<FileInfo>)
    ensures |r| == |uploads|
    ensures forall i :: 0 <= i < |r| ==>
      r[i] == FileInfo(uploads[i].name, ObjectKey(storageId, uploads[i].name), uploads[i].size, uploads[i].contentType)
  {
    seq(|uploads|, i requires 0 <= i < |uploads| =>
      FileInfo(uploads[i].name, ObjectKey(storageId, uploads[i].name), uploads[i].size, uploads[i].contentType))
  }

  function DeclaredSize(uploads: seq<UploadObject>): int
  {
    if uploads == [] then 0 else DeclaredSize(uploads[..|uploads| - 1]) + uploads[|uploads| - 1].size
  }

  /** `strings.TrimPrefix`. */
  function TrimPrefix(s: string, prefix: string): (r: string)
    ensures Text.HasPrefix(s, prefix) ==> s == prefix + r
    ensures !Text.HasPrefix(s, prefix) ==> r == s
  {
    if Text.HasPrefix(s, prefix) then s[|prefix|..] else s
  }

  /** The files a listing reports: one per listed key whose name after the prefix is not empty, in listing order. */
  function ListedFiles(listing: seq<S3.Listed>, prefix: string): seq<FileInfo>
  {
    if listing == [] then []
    else
      var last := listing[|listing| - 1];
      var name := TrimPrefix(last.key, prefix);
      ListedFiles(listing[..|listing| - 1], prefix) + (if name == "" then [] else [FileInfo(name, last.key, last.size, "")])
  }

  function TotalSize(files: seq<FileInfo>): int
  {
    if files == [] then 0 else TotalSize(files[..|files| - 1]) + files[|files| - 1].size
  }

  /**
    Every reported file is a listed key under the prefix, named by the rest
    of its key, never the empty name; and every listed key with a non-empty
    name is reported.
  */
  lemma {:induction false} ListedFilesSpec(listing: seq<S3.Listed>, prefix: string)
    requires forall i :: 0 <= i < |listing| ==> Text.HasPrefix(listing[i].key, prefix)
    ensures forall f :: f in ListedFiles(listing, prefix) ==>
      f.fileName != "" && f.key == prefix + f.fileName && S3.Listed(f.key, f.size) in listing
    ensures forall i :: 0 <= i < |listing| && TrimPrefix(listing[i].key, prefix) != "" ==>
      FileInfo(TrimPrefix(listing[i].key, prefix), listing[i].key, listing[i].size, "") in ListedFiles(listing, prefix)
    ensures |ListedFiles(listing, prefix)| <= |listing|
  {
    if listing != [] {
      var init := listing[..|listing| - 1];
      ListedFilesSpec(init, prefix);
      forall i | 0 <= i < |listing| && TrimPrefix(listing[i].key, prefix) != ""
        ensures FileInfo(TrimPrefix(listing[i].key, prefix), listing[i].key, listing[i].size, "") in ListedFiles(listing, prefix)
      {
        if i < |listing| - 1 {
          assert listing[i] == init[i];
        }
      }
    }
  }

  /** PutAll stores every upload under its key and touches no other key. */
  lemma {:induction false} PutAllKeys(objects: map<string, S3.Object>, storageId: string, uploads: seq<UploadObject>)
    ensures PutAll(objects, storageId, uploads).Keys ==
      objects.Keys + set i | 0 <= i < |uploads| :: ObjectKey(storageId, uploads[i].name)
    ensures forall k :: k in objects && k !in (set i | 0 <= i < |uploads| :: ObjectKey(storageId, uploads[i].name)) ==>
      PutAll(objects, storageId, uploads)[k] == objects[k]
  {
    if uploads != [] {
      var init := uploads[..|uploads| - 1];
      PutAllKeys(objects, storageId, init);
      var added := set i | 0 <= i < |uploads| :: ObjectKey(storageId, uploads[i].name);
      var addedInit := set i | 0 <= i < |init| :: ObjectKey(storageId, init[i].name);
      assert added == addedInit + {ObjectKey(storageId, uploads[|uploads| - 1].name)} by {
        forall k | k in added
          ensures k in addedInit + {ObjectKey(storageId, uploads[|uploads| - 1].name)}
        {
          var i :| 0 <= i < |uploads| && k == ObjectKey(storageId, uploads[i].name);
          if i < |init| {
            assert init[i] == uploads[i];
          }
        }
        forall k | k in addedInit
          ensures k in added
        {
          var i :| 0 <= i < |init| && k == ObjectKey(storageId, init[i].name);
          assert init[i] == uploads[i];
        }
      }
    }
  }

  /** After the uploads, each key holds the last upload of that name. */
  lemma {:induction false} PutAllLastWins(objects: map<string, S3.Object>, storageId: string, uploads: seq<UploadObject>, i: nat)
    requires i < |uploads|
    requires forall j :: i < j < |uploads| ==> uploads[j].name != uploads[i].name
    ensures ObjectKey(storageId, uploads[i].name) in PutAll(objects, storageId, uploads)
    ensures PutAll(objects, storageId, uploads)[ObjectKey(storageId, uploads[i].name)] == S3.Object(uploads[i].body, uploads[i].contentType)
  {
    var n := |uploads| - 1;
    if i < n {
      var init := uploads[..n];
      assert init[i] == uploads[i];
      PutAllLastWins(objects, storageId, init, i);
      if ObjectKey(storageId, uploads[n].name) == ObjectKey(storageId, uploads[i].name) {
        ObjectKeyInjective(storageId, uploads[n].name, uploads[i].name);
      }
    }
  }

  /**
    An upload into an unused folder leaves exactly the uploaded keys under
    the storage id.
  */
  lemma UploadedFolder(objects: map<string, S3.Object>, storageId: string, uploads: seq<UploadObject>)
    requires S3.KeysWithPrefix(objects, storageId + "/") == {}
    ensures S3.KeysWithPrefix(PutAll(objects, storageId, uploads), storageId + "/") ==
      set i | 0 <= i < |uploads| :: ObjectKey(storageId, uploads[i].name)
  {
    PutAllKeys(objects, storageId, uploads);
    var added := set i | 0 <= i < |uploads| :: ObjectKey(storageId, uploads[i].name);
    forall k | k in added
      ensures Text.HasPrefix(k, storageId + "/")
    {
      var i :| 0 <= i < |uploads| && k == ObjectKey(storageId, uploads[i].name);
      assert k[..|storageId + "/"|] == storageId + "/";
    }
    forall k | k in S3.KeysWithPrefix(PutAll(objects, storageId, uploads), storageId + "/")
      ensures k in added
    {
      assert k !in added ==> k in S3.KeysWithPrefix(objects, storageId + "/");
    }
  }

  class LocalFilemanagerConnection {
    const store: S3.Store
    const bucket: string
    const idLength: int

    /** `NewLocalFilemanagerConnection`: the bucket name and the id length setting, parsed with a default of 10. */
    constructor (store: S3.Store, bucket: string, idLengthSetting: string)
      ensures this.store == store && this.bucket == bucket
      ensures idLength == ParseLength(idLengthSetting, DefaultIdLength)
    {
      this.store := store;
      this.bucket := bucket;
      this.idLength := ParseLength(idLengthSetting, DefaultIdLength);
    }

    /** `generateStorageID`: IdLength(idLength) characters, the i-th chosen by the i-th draw. */
    method GenerateStorageID(random: nat -> LetterIndex) returns (id: string)
      ensures id == GeneratedId(IdLength(idLength), random)
    {
      var length := idLength;
      if length <= 0 {
        length := 10;
      }
      id := "";
      var i := 0;
      while i < length
        invariant 0 <= i <= length
        invariant |id| == i
        invariant forall j :: 0 <= j < i ==> id[j] == Letters[random(j)]
      {
        id := id + [Letters[random(i)]];
        i := i + 1;
      }
    }

    /**
      `prefixExists`: whether any key lies in the storage id's folder; a
      missing bucket is reported as "bucket <name> not found".
    */
    method PrefixExists(storageId: string) returns (r: Result<bool, string>)
      ensures bucket !in store.buckets ==> r == Err("bucket " + bucket + " not found")
      ensures r.Ok? ==> bucket in store.buckets && (r.value <==> S3.KeysWithPrefix(store.buckets[bucket], storageId + "/") != {})
      ensures r.Err? ==> r.error == "bucket " + bucket + " not found" || exists e :: r.error == ErrorText(e)
    {
      var out := store.ListObjectsV2(bucket, storageId + "/", 1);
      if out.Err? {
        if out.error == S3.NoSuchBucket {
          return Err("bucket " + bucket + " not found");
        }
        return Err(ErrorText(out.error));
      }
      S3.ListingEmpty(store.buckets[bucket], storageId + "/", 1);
      r := Ok(|out.value| > 0);
    }

    /** The storage id an upload uses: the given one, or a fresh draw when it is empty. */
    function UploadId(storageId: string, random: nat -> LetterIndex): string
    {
      if storageId == "" then GeneratedId(IdLength(idLength), random) else storageId
    }

    /**
      `Upload`: refuses an empty upload; refuses a storage id whose folder
      is in use; otherwise puts the files in order and reports them with
      their total declared size. A failed put stops the upload: the result
      carries the error but no storage id or files, and the files put before
      it stay stored.
    */
    method Upload(storageId: string, uploads: seq<UploadObject>, random: nat -> LetterIndex, transactionId: string)
      returns (res: Option<UploadResult>, err: Option<string>)
      modifies store
      ensures uploads == [] ==> res.None? && err == Some("no files provided") && store.buckets == old(store.buckets)
      ensures uploads != [] ==> res.Some? && res.value.transactionId == transactionId && (res.value.success <==> err.None?)
      ensures err.Some? && res.Some? ==>
        res.value == UploadResult(transactionId, "", [], 0, false, err.value)
      ensures err.None? ==>
        var id := UploadId(storageId, random);
        && res == Some(UploadResult(transactionId, id, UploadedInfos(id, uploads), DeclaredSize(uploads), true, ""))
        && bucket in old(store.buckets)
        && S3.KeysWithPrefix(old(store.buckets)[bucket], id + "/") == {}
        && store.buckets == old(store.buckets)[bucket := PutAll(old(store.buckets)[bucket], id, uploads)]
      ensures err == Some("storage id " + UploadId(storageId, random) + " already exists") ==>
        && bucket in old(store.buckets)
        && S3.KeysWithPrefix(old(store.buckets)[bucket], UploadId(storageId, random) + "/") != {}
        && store.buckets == old(store.buckets)
      ensures err.Some? ==> (store.buckets == old(store.buckets) ||
        (bucket in old(store.buckets) && exists k :: (0 <= k < |uploads| &&
          store.buckets == old(store.buckets)[bucket := PutAll(old(store.buckets)[bucket], UploadId(storageId, random), uploads[..k])])))
    {
      if uploads == [] {
        return None, Some("no files provided");
      }
      var id := storageId;
      if id == "" {
        id := GenerateStorageID(random);
      }
      var inUse := PrefixExists(id);
      if inUse.Err? {
        assert inUse.error[0] != ("storage id " + id + " already exists")[0];
        return Some(UploadResult(transactionId, "", [], 0, false, inUse.error)), Some(inUse.error);
      }
      if inUse.value {
        var message := "storage id " + id + " already exists";
        return Some(UploadResult(transactionId, "", [], 0, false, message)), Some(message);
      }
      var infos, totalSize, failure := PutUploads(id, uploads);
      if failure.Some? {
        assert failure.value[0] != ("storage id " + id + " already exists")[0];
        return Some(UploadResult(transactionId, "", [], 0, false, failure.value)), failure;
      }
      res, err := Some(UploadResult(transactionId, id, infos, totalSize, true, "")), None;
    }

    /**
      The loop of `Upload`: puts each file under the storage id in turn and
      stops at the first failed put, leaving the files before it stored.
    */
    method PutUploads(storageId: string, uploads: seq<UploadObject>)
      returns (infos: seq<FileInfo>, totalSize: int, failure: Option<string>)
      requires bucket in store.buckets
      modifies store
      ensures failure.None? ==>
        && store.buckets == old(store.buckets)[bucket := PutAll(old(store.buckets)[bucket], storageId, uploads)]
        && infos == UploadedInfos(storageId, uploads)
        && totalSize == DeclaredSize(uploads)
      ensures failure.Some? ==>
        && (exists e :: failure.value == ErrorText(e))
        && (exists k ::
              0 <= k < |uploads| &&
              store.buckets == old(store.buckets)[bucket := PutAll(old(store.buckets)[bucket], storageId, uploads[..k])])
    {
      ghost var before := store.buckets[bucket];
      totalSize := 0;
      infos := [];
      var i := 0;
      while i < |uploads|
        invariant 0 <= i <= |uploads|
        invariant bucket in old(store.buckets) && old(store.buckets)[bucket] == before
        invariant store.buckets == old(store.buckets)[bucket := PutAll(before, storageId, uploads[..i])]
        invariant infos == UploadedInfos(storageId, uploads[..i])
        invariant totalSize == DeclaredSize(uploads[..i])
      {
        var obj := uploads[i];
        var key := ObjectKey(storageId, obj.name);
        var putErr := store.PutObject(bucket, key, S3.Object(obj.body, obj.contentType));
        if putErr.Some? {
          return infos, totalSize, Some(ErrorText(putErr.value));
        }
        assert uploads[..i + 1][..i] == uploads[..i];
        infos := infos + [FileInfo(obj.name, key, obj.size, obj.contentType)];
        totalSize := totalSize + obj.size;
        i := i + 1;
      }
      assert uploads[..|uploads|] == uploads;
      failure := None;
    }

    /**
      `List`: refuses an empty storage id; reports "storage id <id> not
      found" for an empty folder; otherwise the files of the first page of
      the folder's listing, in key order, with their total size.
    */
    method List(storageId: string) returns (r: Result<BucketMetadata, string>)
      ensures storageId == "" ==> r == Err("storage id is required")
      ensures storageId != "" && bucket !in store.buckets ==> r == Err(ErrorText(S3.NoSuchBucket))
      ensures r == Err("storage id " + storageId + " not found") ==>
        bucket in store.buckets && S3.KeysWithPrefix(store.buckets[bucket], storageId + "/") == {}
      ensures r.Ok? ==>
        var listing := S3.Listing(store.buckets[bucket], storageId + "/", S3.DefaultMaxKeys);
        && bucket in store.buckets
        && listing != []
        && r.value == BucketMetadata(storageId, ListedFiles(listing, storageId + "/"), TotalSize(ListedFiles(listing, storageId + "/")))
    {
      if storageId == "" {
        return Err("storage id is required");
      }
      var prefix := storageId + "/";
      var resp := store.ListObjectsV2(bucket, prefix, S3.DefaultMaxKeys);
      if resp.Err? {
        return Err(ErrorText(resp.error));
      }
      var listing := resp.value;
      if |listing| == 0 {
        S3.ListingEmpty(store.buckets[bucket], prefix, S3.DefaultMaxKeys);
        return Err("storage id " + storageId + " not found");
      }
      var files, totalSize := CollectFiles(listing, prefix);
      r := Ok(BucketMetadata(storageId, files, totalSize));
    }

    /** The loop of `List` over the listed objects. */
    static method CollectFiles(listing: seq<S3.Listed>, prefix: string) returns (files: seq<FileInfo>, totalSize: int)
      ensures files == ListedFiles(listing, prefix)
      ensures totalSize == TotalSize(files)
    {
      files := [];
      totalSize := 0;
      var i := 0;
      while i < |listing|
        invariant 0 <= i <= |listing|
        invariant files == ListedFiles(listing[..i], prefix)
        invariant totalSize == TotalSize(files)
      {
        assert listing[..i + 1][..i] == listing[..i];
        var name := TrimPrefix(listing[i].key, prefix);
        if name != "" {
          var size := listing[i].size;
          files := files + [FileInfo(name, listing[i].key, size, "")];
          totalSize := totalSize + size;
        }
        i := i + 1;
      }
      assert listing[..|listing|] == listing;
    }

    /** `Download`: both names are required; the object under "<storage id>/<filename>", with its length. */
    method Download(storageId: string, filename: string) returns (r: Result<DownloadResult, string>)
      ensures storageId == "" || filename == "" ==> r == Err("storage id and filename are required")
      ensures storageId != "" && filename != "" && bucket in store.buckets && ObjectKey(storageId, filename) !in store.buckets[bucket] ==>
        r == Err(ErrorText(S3.NoSuchKey))
      ensures r.Ok? ==>
        && bucket in store.buckets && ObjectKey(storageId, filename) in store.buckets[bucket]
        && var obj := store.buckets[bucket][ObjectKey(storageId, filename)];
        r.value == DownloadResult(obj.body, obj.contentType, |obj.body|, filename)
    {
      if storageId == "" || filename == "" {
        return Err("storage id and filename are required");
      }
      var key := ObjectKey(storageId, filename);
      var obj := store.GetObject(bucket, key);
      if obj.Err? {
        return Err(ErrorText(obj.error));
      }
      r := Ok(DownloadResult(obj.value.body, obj.value.contentType, |obj.value.body|, filename));
    }
  }
}
