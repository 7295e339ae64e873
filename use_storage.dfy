/** The useStorage hook: builds a storage key for a file, uploads it to a bucket and returns the
    file's public URL, keeping an `uploading` and an `uploadError` flag. */
module UseStorage {
  import opened Wrappers
  import opened Text
  import opened Seqs

  /** The bucket used when the caller names none. */
  const DefaultBucket: string := "birds"

  function BucketOrDefault(bucket: Option<string>): (b: string)
    ensures bucket.None? ==> b == DefaultBucket
    ensures bucket.Some? ==> b == bucket.value
  {
    if bucket.Some? then bucket.value else DefaultBucket
  }

  /** `fileName.split('.').pop()`: the text after the last '.', or the whole name when there is
      no '.'. */
  function Extension(fileName: string): (ext: string)
    ensures |ext| <= |fileName| && ext == fileName[|fileName| - |ext|..]
    ensures '.' !in ext
    ensures '.' in fileName ==> |ext| < |fileName| && fileName[|fileName| - |ext| - 1] == '.'
    ensures '.' !in fileName ==> ext == fileName
  {
    if fileName == [] then ""
    else
      var n := |fileName|;
      if fileName[n - 1] == '.' then ""
      else
        var init := fileName[..n - 1];
        var ext := Extension(init) + [fileName[n - 1]];
        assert fileName == init + [fileName[n - 1]];
        assert '.' in fileName ==> '.' in init;
        ext
  }

  function Last<T>(s: seq<T>): T
    requires |s| > 0
  {
    s[|s| - 1]
  }

  /** q is p with c appended to its last piece. */
  ghost predicate LastPieceExtended(p: seq<string>, q: seq<string>, c: char) {
    |p| > 0 && |q| == |p| && q[..|p| - 1] == p[..|p| - 1] && Last(q) == Last(p) + [c]
  }

  lemma ExtendedAfterEmpty(p: seq<string>, q: seq<string>, c: char)
    requires LastPieceExtended(p, q, c)
    ensures LastPieceExtended([""] + p, [""] + q, c)
  {
    assert ([""] + q)[..|p|] == [""] + q[..|p| - 1];
    assert ([""] + p)[..|p|] == [""] + p[..|p| - 1];
  }

  lemma ExtendedAfterChar(h: char, p: seq<string>, q: seq<string>, c: char)
    requires LastPieceExtended(p, q, c)
    ensures LastPieceExtended([[h] + p[0]] + p[1..], [[h] + q[0]] + q[1..], c)
  {
    var n := |p|;
    var p', q' := [[h] + p[0]] + p[1..], [[h] + q[0]] + q[1..];
    if n == 1 {
      assert Last(q') == [h] + q[0];
    } else {
      assert q[0] == p[0] by { assert q[..n - 1][0] == p[..n - 1][0]; }
      assert q[1..n - 1] == p[1..n - 1] by {
        assert q[1..n - 1] == q[..n - 1][1..];
        assert p[1..n - 1] == p[..n - 1][1..];
      }
      assert q'[..n - 1] == [[h] + q[0]] + q[1..n - 1];
      assert p'[..n - 1] == [[h] + p[0]] + p[1..n - 1];
    }
  }

  lemma {:induction false} SplitAppend(s: string, c: char, sep: char)
    requires c != sep
    ensures LastPieceExtended(Split(s, sep), Split(s + [c], sep), c)
  {
    if s == [] {
      var r := Split([], sep);
      assert [c][1..] == [] && r == [""];
      assert r[1..] == [] && [c] + r[0] == [c];
      assert Split(s + [c], sep) == [[c]];
    } else {
      var rest, rest' := Split(s[1..], sep), Split(s[1..] + [c], sep);
      assert (s + [c])[1..] == s[1..] + [c];
      SplitAppend(s[1..], c, sep);
      if s[0] == sep {
        ExtendedAfterEmpty(rest, rest', c);
      } else {
        ExtendedAfterChar(s[0], rest, rest', c);
      }
    }
  }

  lemma {:induction false} SplitAppendSep(s: string, sep: char)
    ensures var p, q := Split(s, sep), Split(s + [sep], sep);
      |q| == |p| + 1 && q[..|p|] == p && Last(q) == ""
  {
    var p, q := Split(s, sep), Split(s + [sep], sep);
    if s == [] {
      var r := Split([], sep);
      assert [sep][1..] == [] && r == [""];
      assert q == ["", ""];
    } else {
      var rest, rest' := Split(s[1..], sep), Split(s[1..] + [sep], sep);
      assert (s + [sep])[1..] == s[1..] + [sep];
      SplitAppendSep(s[1..], sep);
      var n := |rest|;
      if s[0] == sep {
        assert p == [""] + rest && q == [""] + rest';
      } else {
        assert p == [[s[0]] + rest[0]] + rest[1..];
        assert q == [[s[0]] + rest'[0]] + rest'[1..];
        assert rest'[0] == rest[0] by { assert rest'[..n][0] == rest[0]; }
        assert rest'[1..n] == rest[1..] by { assert rest'[1..n] == rest'[..n][1..]; }
      }
    }
  }

  /** Extension agrees with the source's own expression: the last piece of the split on '.'. */
  lemma {:induction false} ExtensionIsLastPiece(fileName: string)
    ensures Extension(fileName) == Last(Split(fileName, '.'))
  {
    if fileName != [] {
      var n := |fileName|;
      var init := fileName[..n - 1];
      assert fileName == init + [fileName[n - 1]];
      if fileName[n - 1] == '.' {
        SplitAppendSep(init, '.');
      } else {
        ExtensionIsLastPiece(init);
        SplitAppend(init, fileName[n - 1], '.');
      }
    }
  }

  function DigitChar(d: nat): char
    requires d < 10
  {
    "0123456789"[d]
  }

  function DigitValue(c: char): nat {
    if '0' <= c <= '9' then c as int - '0' as int else 0
  }

  /** `String(n)` for the non-negative integer returned by `Date.now()`. */
  function Decimal(n: nat): (s: string)
    ensures |s| > 0
    ensures forall i :: 0 <= i < |s| ==> '0' <= s[i] <= '9'
  {
    if n < 10 then [DigitChar(n)] else Decimal(n / 10) + [DigitChar(n % 10)]
  }

  function ParseDecimal(s: string): nat {
    if s == [] then 0 else 10 * ParseDecimal(s[..|s| - 1]) + DigitValue(s[|s| - 1])
  }

  lemma {:induction false} ParseDecimalOfDecimal(n: nat)
    ensures ParseDecimal(Decimal(n)) == n
  {
    if n >= 10 {
      var s := Decimal(n);
      assert s[..|s| - 1] == Decimal(n / 10);
      ParseDecimalOfDecimal(n / 10);
    }
  }

  /** The storage key: `${token}-${timestamp}.${ext}`, where token stands for
      `Math.random().toString(36).substring(2)` and timestamp for `Date.now()`. */
  function StorageKey(token: string, timestamp: nat, fileName: string): (key: string)
    ensures var ext := Extension(fileName);
      |key| > |ext| && key[|key| - |ext| - 1..] == "." + ext
  {
    token + "-" + Decimal(timestamp) + "." + Extension(fileName)
  }

  /** The characters `Number.prototype.toString(36)` produces after "0.": digits and a-z. */
  predicate IsBase36Token(token: string) {
    forall i :: 0 <= i < |token| ==> '0' <= token[i] <= '9' || 'a' <= token[i] <= 'z'
  }

  lemma {:induction false} SplitAtFirst(a: string, b: string, a': string, b': string, c: char)
    requires c !in a && c !in a'
    requires a + [c] + b == a' + [c] + b'
    ensures a == a' && b == b'
  {
    var u := a + [c] + b;
    assert u[|a|] == c && forall j :: 0 <= j < |a| ==> u[j] == a[j];
    FirstIndexDetermined(u, c, |a|);
    assert u == a' + [c] + b';
    assert u[|a'|] == c && forall j :: 0 <= j < |a'| ==> u[j] == a'[j];
    FirstIndexDetermined(u, c, |a'|);
    assert a == u[..|a|] && a' == u[..|a'|];
    assert b == u[|a| + 1..] && b' == u[|a'| + 1..];
  }

  lemma KeyLayout(t: string, d: string, e: string)
    ensures t + "-" + d + "." + e == t + ['-'] + (d + ['.'] + e)
  {
  }

  lemma Base36NoHyphen(t: string)
    requires IsBase36Token(t)
    ensures '-' !in t
  {
  }

  lemma DecimalNoDot(n: nat)
    ensures '.' !in Decimal(n)
  {
  }

  /** Keys never collide across distinct tokens, timestamps or extensions: the key can be read
      back into its three parts. */
  lemma {:induction false} StorageKeyInjective(t1: string, n1: nat, f1: string, t2: string, n2: nat, f2: string)
    requires IsBase36Token(t1) && IsBase36Token(t2)
    requires StorageKey(t1, n1, f1) == StorageKey(t2, n2, f2)
    ensures t1 == t2 && n1 == n2 && Extension(f1) == Extension(f2)
  {
    var d1, d2 := Decimal(n1), Decimal(n2);
    var e1, e2 := Extension(f1), Extension(f2);
    Base36NoHyphen(t1);
    Base36NoHyphen(t2);
    DecimalNoDot(n1);
    DecimalNoDot(n2);
    KeyLayout(t1, d1, e1);
    KeyLayout(t2, d2, e2);
    SplitAtFirst(t1, d1 + ['.'] + e1, t2, d2 + ['.'] + e2, '-');
    SplitAtFirst(d1, e1, d2, e2, '.');
    ParseDecimalOfDecimal(n1);
    ParseDecimalOfDecimal(n2);
  }

  /** A call the hook makes to the blob store. */
  datatype StorageCall = Upload(bucket: string, key: string) | GetPublicUrl(bucket: string, key: string)

  /** The state of one useStorage instance; `calls` records what was asked of the blob store. */
  class StorageHook {
    var uploading: bool
    var uploadError: Option<string>
    ghost var calls: seq<StorageCall>

    constructor ()
      ensures !uploading && uploadError == None && calls == []
    {
      uploading := false;
      uploadError := None;
      calls := [];
    }

    /** `uploadImage`: uploads under StorageKey to the bucket (default "birds"); on an upload
        error records its message and returns None without asking for a URL; otherwise returns
        the public URL of that same bucket and key. `uploading` ends false on every path.
        `reply` is the blob store's answer and `publicUrl` its URL function. */
    method UploadImage(fileName: string, bucket: Option<string>, token: string, timestamp: nat,
                       reply: Outcome, publicUrl: (string, string) -> string)
      returns (url: Option<string>)
      modifies this
      ensures !uploading
      ensures reply.Err? ==> url == None && uploadError == Some(reply.message)
      ensures reply.Err? ==>
        calls == old(calls) + [Upload(BucketOrDefault(bucket), StorageKey(token, timestamp, fileName))]
      ensures reply.Ok? ==>
        url == Some(publicUrl(BucketOrDefault(bucket), StorageKey(token, timestamp, fileName))) && uploadError == None
      ensures reply.Ok? ==>
        calls == old(calls) + [Upload(BucketOrDefault(bucket), StorageKey(token, timestamp, fileName)),
                               GetPublicUrl(BucketOrDefault(bucket), StorageKey(token, timestamp, fileName))]
    {
      uploading := true;
      uploadError := None;
      var b := BucketOrDefault(bucket);
      var key := StorageKey(token, timestamp, fileName);
      calls := calls + [Upload(b, key)];
      match reply {
        case Err(msg) =>
          uploadError := Some(msg);
          url := None;
        case Ok =>
          calls := calls + [GetPublicUrl(b, key)];
          url := Some(publicUrl(b, key));
      }
      uploading := false;
    }
  }
}
