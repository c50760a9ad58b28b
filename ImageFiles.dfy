/**
 * The listing of the product image folder (lib/getImageFiles.ts): the file
 * names, grouped into five size buckets by their leading `<digits>mm`
 * number, remembered after the first successful read.
 */
module ImageFiles {
  import opened Wrappers
  import opened Seqs
  import opened Text

  /** The five keys of `filesBySize`. */
  datatype SizeKey = S430 | S395 | S380 | S360 | S350

  /** A key as the object spells it. */
  function KeyName(k: SizeKey): string {
    match k
    case S430 => "430"
    case S395 => "395"
    case S380 => "380"
    case S360 => "360"
    case S350 => "350"
  }

  /** The `filesBySize` object: one list of file names per key. */
  datatype Buckets = Buckets(b430: seq<string>, b395: seq<string>, b380: seq<string>,
                             b360: seq<string>, b350: seq<string>)
  {
    /** `filesBySize[key]`. */
    function Get(k: SizeKey): seq<string> {
      match k
      case S430 => b430
      case S395 => b395
      case S380 => b380
      case S360 => b360
      case S350 => b350
    }

    /** `filesBySize[key].push(file)`. */
    function Push(k: SizeKey, file: string): (r: Buckets)
      ensures r.Get(k) == Get(k) + [file]
      ensures forall j :: j != k ==> r.Get(j) == Get(j)
    {
      match k
      case S430 => this.(b430 := b430 + [file])
      case S395 => this.(b395 := b395 + [file])
      case S380 => this.(b380 := b380 + [file])
      case S360 => this.(b360 := b360 + [file])
      case S350 => this.(b350 := b350 + [file])
    }

    /** The object as a dictionary from key names to file lists. */
    function AsObject(): map<string, seq<string>> {
      map["430" := b430, "395" := b395, "380" := b380, "360" := b360, "350" := b350]
    }

    /** The number of file names in all buckets together. */
    function Total(): nat {
      |b430| + |b395| + |b380| + |b360| + |b350|
    }
  }

  /** What a read of the folder gives: its file names in listing order, or a
      failure (`readdir` throws). */
  datatype Listing = Listed(files: seq<string>) | ReadFailed

  /** The bucket a file is pushed to, by the number `/^(\d+)mm/` captures. */
  function BucketFor(file: string): Option<SizeKey> {
    match MmNumber(file)
    case None => None
    case Some(size) =>
      if size == "430" then Some(S430)
      else if size == "395" then Some(S395)
      else if size == "380" then Some(S380)
      else if size == "362" then Some(S360)
      else if size == "352" then Some(S350)
      else None
  }

  /** The filter that picks the files of one bucket. */
  function InBucket(k: SizeKey): string -> bool {
    f => BucketFor(f) == Some(k)
  }

  /** The `filesBySize` object built from a listing: each bucket holds the
      listed files that belong to it, in listing order. */
  function Grouped(files: seq<string>): Buckets {
    Buckets(Filter(files, InBucket(S430)), Filter(files, InBucket(S395)),
            Filter(files, InBucket(S380)), Filter(files, InBucket(S360)),
            Filter(files, InBucket(S350)))
  }

  lemma GroupedGet(files: seq<string>, k: SizeKey)
    ensures Grouped(files).Get(k) == Filter(files, InBucket(k))
  {
  }

  /** Grouping one more file pushes it onto its bucket, if it has one. */
  lemma GroupedSnoc(files: seq<string>, f: string)
    ensures BucketFor(f).None? ==> Grouped(files + [f]) == Grouped(files)
    ensures BucketFor(f).Some? ==> Grouped(files + [f]) == Grouped(files).Push(BucketFor(f).value, f)
  {
    FilterSnoc(files, f, InBucket(S430));
    FilterSnoc(files, f, InBucket(S395));
    FilterSnoc(files, f, InBucket(S380));
    FilterSnoc(files, f, InBucket(S360));
    FilterSnoc(files, f, InBucket(S350));
  }

  lemma GroupedPrefix(files: seq<string>, i: nat)
    requires i < |files|
    ensures Grouped(files[..i + 1]) ==
      (match BucketFor(files[i])
       case None => Grouped(files[..i])
       case Some(k) => Grouped(files[..i]).Push(k, files[i]))
  {
    assert files[..i + 1] == files[..i] + [files[i]];
    GroupedSnoc(files[..i], files[i]);
  }

  /** The `forEach` of `getActualImageFiles`: push each file of the listing
      onto its bucket. */
  method GroupFilesBySize(files: seq<string>) returns (bySize: Buckets)
    ensures bySize == Grouped(files)
  {
    bySize := Buckets([], [], [], [], []);
    var i := 0;
    while i < |files|
      invariant i <= |files|
      invariant bySize == Grouped(files[..i])
    {
      var file := files[i];
      GroupedPrefix(files, i);
      match BucketFor(file) {
        case None =>
        case Some(key) => bySize := bySize.Push(key, file);
      }
      i := i + 1;
    }
    assert files[..i] == files;
  }

  /** The object has exactly the five size keys. */
  lemma ObjectKeys(b: Buckets)
    ensures b.AsObject().Keys == {"430", "395", "380", "360", "350"}
    ensures forall k :: b.AsObject()[KeyName(k)] == b.Get(k)
  {
  }

  /** A bucket holds exactly the listed files that belong to it, in listing
      order; so no file is in two buckets. */
  lemma GroupedSpec(files: seq<string>)
    ensures forall k, f :: f in Grouped(files).Get(k) <==> f in files && BucketFor(f) == Some(k)
    ensures forall k :: IsSubsequence(Grouped(files).Get(k), files)
    ensures forall k1, k2, f :: f in Grouped(files).Get(k1) && f in Grouped(files).Get(k2) ==> k1 == k2
  {
    forall k
      ensures forall f :: f in Grouped(files).Get(k) <==> f in files && BucketFor(f) == Some(k)
      ensures IsSubsequence(Grouped(files).Get(k), files)
    {
      GroupedGet(files, k);
      FilterSpec(files, InBucket(k));
    }
  }

  /** The five buckets together hold no more files than the listing. */
  lemma {:induction false} GroupedTotal(files: seq<string>)
    ensures Grouped(files).Total() <= |files|
    decreases |files|
  {
    if files != [] {
      var n := |files| - 1;
      GroupedTotal(files[..n]);
      assert files == files[..n] + [files[n]];
      GroupedSnoc(files[..n], files[n]);
    }
  }

  /** A file named `<d>mm<rest>`, with `d` all digits and `rest` not starting
      with a digit, goes to the bucket of `d`: 430, 395 and 380 to their own,
      362 to 360, 352 to 350, and any other number to none. */
  lemma BucketOfName(d: string, rest: string)
    requires d != [] && forall i :: 0 <= i < |d| ==> IsDigit(d[i])
    ensures var b := BucketFor(d + "mm" + rest);
      && (d == "430" || d == "395" || d == "380" ==> b.Some? && KeyName(b.value) == d)
      && (d == "362" ==> b == Some(S360))
      && (d == "352" ==> b == Some(S350))
      && (d !in {"430", "395", "380", "362", "352"} ==> b == None)
  {
    MmNumberOf(d, rest);
  }

  /** A name that does not start with a digit is in no bucket. */
  lemma NoLeadingDigit(file: string)
    requires file == [] || !IsDigit(file[0])
    ensures BucketFor(file) == None
  {
  }

  // ------------------------------------------------------------- the cache

  /** The module state of lib/getImageFiles.ts: the `fileCache` slot. */
  class ImageFileIndex {
    var fileCache: Option<Buckets>

    constructor()
      ensures fileCache == None
    {
      fileCache := None;
    }

    /** `getActualImageFiles`, with `listing` standing for what `readdir`
        gives if it is called: a filled cache is returned as it is; otherwise a
        successful read is grouped, stored and returned, and a failed read
        returns `{}` and leaves the cache empty. */
    method GetActualImageFiles(listing: Listing) returns (bySize: map<string, seq<string>>)
      modifies this
      ensures old(fileCache).Some? ==> bySize == old(fileCache).value.AsObject() && fileCache == old(fileCache)
      ensures old(fileCache).None? && listing.Listed? ==>
        fileCache == Some(Grouped(listing.files)) && bySize == Grouped(listing.files).AsObject()
      ensures old(fileCache).None? && listing.ReadFailed? ==> bySize == map[] && fileCache == None
    {
      if fileCache.Some? {
        return fileCache.value.AsObject();
      }
      match listing {
        case ReadFailed =>
          bySize := map[];
        case Listed(files) =>
          var grouped := GroupFilesBySize(files);
          fileCache := Some(grouped);
          bySize := grouped.AsObject();
      }
    }
  }
}
