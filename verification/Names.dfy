/** File names as the kernel compares them: at most 28 bytes, ending early at a NUL. */
module Names {
  import opened Common

  const MAX_FILE_NAME := 28

  /** A directory entry; inode number 0 marks it unused. */
  datatype Dentry = Dentry(name: seq<Byte>, ino: nat)

  /** The i-th byte of a C string; a string ends with NUL. */
  function At(s: seq<Byte>, i: nat): Byte { if i < |s| then s[i] else 0 }

  function KeyFrom(s: seq<Byte>, i: nat): seq<Byte>
    decreases MAX_FILE_NAME - i
  {
    if i >= MAX_FILE_NAME || At(s, i) == 0 then [] else [At(s, i)] + KeyFrom(s, i + 1)
  }

  /** What a name means to the file system. */
  function Key(s: seq<Byte>): seq<Byte> { KeyFrom(s, 0) }

  /** a and b carry the same non-NUL bytes up to i. */
  ghost predicate SameTo(a: seq<Byte>, b: seq<Byte>, i: nat) {
    forall j :: 0 <= j < i ==> At(a, j) == At(b, j) != 0
  }

  lemma {:induction false} KeysFromSame(a: seq<Byte>, b: seq<Byte>, i: nat, n: nat)
    requires i <= n <= MAX_FILE_NAME && SameTo(a, b, n)
    ensures KeyFrom(a, i) == KeyFrom(b, i) <==> KeyFrom(a, n) == KeyFrom(b, n)
    decreases n - i
  {
    if i < n {
      assert At(a, i) == At(b, i) != 0;
      KeysFromSame(a, b, i + 1, n);
      assert KeyFrom(a, i)[1..] == KeyFrom(a, i + 1) && KeyFrom(b, i)[1..] == KeyFrom(b, i + 1);
    }
  }

  /** strncmp over 28 bytes is zero exactly for names with the same meaning. */
  method Compare(a: seq<Byte>, b: seq<Byte>) returns (r: int)
    ensures r == 0 <==> Key(a) == Key(b)
  {
    var i := 0;
    while i < MAX_FILE_NAME
      invariant 0 <= i <= MAX_FILE_NAME && SameTo(a, b, i)
    {
      if At(a, i) == 0 || At(a, i) != At(b, i) {
        r := At(a, i) - At(b, i);
        KeysFromSame(a, b, 0, i);
        assert At(a, i) != 0 && At(b, i) != 0 ==> KeyFrom(a, i)[0] != KeyFrom(b, i)[0];
        return;
      }
      i := i + 1;
    }
    KeysFromSame(a, b, 0, MAX_FILE_NAME);
    r := 0;
  }

  /** A name as a 28-byte field holds it: cut at its end and filled up with NULs. */
  function Padded(name: seq<Byte>): (field: seq<Byte>)
    ensures |field| == MAX_FILE_NAME && Key(field) == Key(name)
  {
    PaddedKey(name);
    Key(name) + seq(MAX_FILE_NAME - |Key(name)|, _ => 0)
  }

  lemma {:induction false} KeyFromLength(s: seq<Byte>, i: nat)
    requires i <= MAX_FILE_NAME
    ensures |KeyFrom(s, i)| <= MAX_FILE_NAME - i
    ensures forall j :: 0 <= j < |KeyFrom(s, i)| ==> KeyFrom(s, i)[j] == At(s, i + j) != 0
    ensures forall j :: i <= j < i + |KeyFrom(s, i)| ==> At(s, j) != 0
    ensures i + |KeyFrom(s, i)| < MAX_FILE_NAME ==> At(s, i + |KeyFrom(s, i)|) == 0
    decreases MAX_FILE_NAME - i
  {
    if i < MAX_FILE_NAME && At(s, i) != 0 {
      KeyFromLength(s, i + 1);
      assert forall j :: 1 <= j < |KeyFrom(s, i)| ==> KeyFrom(s, i)[j] == KeyFrom(s, i + 1)[j - 1];
    }
  }

  /** A name means its bytes up to the first NUL, but no more than 28 of them. */
  lemma KeyMeans(s: seq<Byte>)
    ensures |Key(s)| <= 28 && |Key(s)| <= |s| && Key(s) == s[..|Key(s)|] && 0 !in Key(s)
    ensures |Key(s)| < 28 && |Key(s)| < |s| ==> s[|Key(s)|] == 0
  {
    KeyFromLength(s, 0);
    var n := |Key(s)|;
    assert n > 0 ==> Key(s)[n - 1] == At(s, n - 1);
  }

  lemma PaddedKey(name: seq<Byte>)
    ensures |Key(name)| <= MAX_FILE_NAME
    ensures Key(Key(name) + seq(MAX_FILE_NAME - |Key(name)|, _ => 0)) == Key(name)
  {
    KeyFromLength(name, 0);
    var n := |Key(name)|;
    var field := Key(name) + seq(MAX_FILE_NAME - n, _ => 0);
    assert SameTo(field, name, n);
    KeysFromSame(field, name, 0, n);
  }

  /** strncpy of a name into a 28-byte field. */
  method CopyName(src: seq<Byte>) returns (dest: seq<Byte>)
    ensures dest == Padded(src)
  {
    dest := [];
    while At(src, |dest|) != 0 && |dest| < MAX_FILE_NAME
      invariant |dest| <= MAX_FILE_NAME && forall j :: 0 <= j < |dest| ==> dest[j] == At(src, j) != 0
      decreases MAX_FILE_NAME - |dest|
    {
      dest := dest + [At(src, |dest|)];
    }
    var n := |dest|;
    KeyFromLength(src, 0);
    assert |Key(src)| == n;
    while |dest| < MAX_FILE_NAME
      invariant n <= |dest| <= MAX_FILE_NAME && forall j :: n <= j < |dest| ==> dest[j] == 0
      invariant forall j :: 0 <= j < n ==> dest[j] == At(src, j) != 0
      decreases MAX_FILE_NAME - |dest|
    {
      dest := dest + [0];
    }
  }
}
