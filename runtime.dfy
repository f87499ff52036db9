/** What the Python 2 runtime and the operating system provide to the
    protocol: byte strings, a directory on disk, `os.path.join`, the `%d`
    conversion, and the few predicates on strings the protocol relies on. */
module Runtime {

  datatype Option<+T> = None | Some(value: T)

  /** A Python 2 `str`: a string of bytes, one `char` per byte. */
  type Bytes = string

  /** `hashlib.md5(s).hexdigest()`, left uninterpreted: any function of the bytes. */
  type Md5 = Bytes -> string

  /** A directory tree as the protocol sees it: the regular files with their
      contents, and the names that are directories. */
  datatype Directory = Directory(files: map<string, Bytes>, dirs: set<string>)

  /** `os.path.isfile(p)`. */
  predicate IsFile(d: Directory, p: string) {
    p in d.files && p !in d.dirs
  }

  /** The concatenation of a sequence of chunks. */
  function Flatten(chunks: seq<Bytes>): (r: Bytes)
  {
    if chunks == [] then [] else chunks[0] + Flatten(chunks[1..])
  }

  lemma {:induction false} FlattenAppend(a: seq<Bytes>, b: seq<Bytes>)
    ensures Flatten(a + b) == Flatten(a) + Flatten(b)
  {
    if a == [] {
      assert a + b == b;
    } else {
      assert (a + b)[1..] == a[1..] + b;
      FlattenAppend(a[1..], b);
    }
  }

  lemma FlattenSnoc(a: seq<Bytes>, x: Bytes)
    ensures Flatten(a + [x]) == Flatten(a) + x
  {
    FlattenAppend(a, [x]);
    assert Flatten([x]) == x + Flatten([]);
  }

  /** Writing an entry after creating it, or deleting it, forgets the creation. */
  lemma RewriteEntry(files: map<string, Bytes>, path: string, first: Bytes, second: Bytes)
    ensures files[path := first][path := second] == files[path := second]
    ensures files[path := first] - {path} == files - {path}
  {
  }

  /** `posixpath.join(a, b)` of Python 2. */
  function PathJoin(a: string, b: string): string
  {
    if |b| > 0 && b[0] == '/' then b
    else if a == [] || a[|a| - 1] == '/' then a + b
    else a + "/" + b
  }

  /** The joined path ends in its last component. */
  lemma PathJoinEndsWith(a: string, b: string)
    ensures EndsWith(PathJoin(a, b), b)
  {
    var r := PathJoin(a, b);
    if !(|b| > 0 && b[0] == '/') {
      if a == [] || a[|a| - 1] == '/' {
        assert r == a + b;
      } else {
        assert r == (a + "/") + b;
      }
      assert r[|r| - |b|..] == b;
    }
  }

  /** A relative second part is placed under the first: the joined path starts
      with the directory, and an absolute one replaces it. */
  lemma PathJoinStartsWith(a: string, b: string)
    ensures !(|b| > 0 && b[0] == '/') ==> StartsWith(PathJoin(a, b), a)
    ensures |b| > 0 && b[0] == '/' ==> PathJoin(a, b) == b
  {
    var r := PathJoin(a, b);
    if !(|b| > 0 && b[0] == '/') {
      if a == [] || a[|a| - 1] == '/' {
        assert r == a + b;
      } else {
        assert r == a + ("/" + b);
      }
      assert r[..|a|] == a;
    }
  }

  function DigitChar(d: nat): (c: char)
    requires d < 10
    ensures c as int == '0' as int + d
  {
    ['0', '1', '2', '3', '4', '5', '6', '7', '8', '9'][d]
  }

  /** The number a string of decimal digits denotes, most significant first. */
  function DecimalValue(s: string): nat
    requires forall i :: 0 <= i < |s| ==> '0' <= s[i] <= '9'
  {
    if s == [] then 0
    else DecimalValue(s[..|s| - 1]) * 10 + (s[|s| - 1] as int - '0' as int)
  }

  /** The `%d` conversion of a non-negative integer: decimal digits, with no
      leading zero, that denote the integer. */
  function Decimal(n: nat): (r: string)
    ensures |r| >= 1 && (forall i :: 0 <= i < |r| ==> '0' <= r[i] <= '9')
    ensures r[0] == '0' ==> r == "0"
    ensures DecimalValue(r) == n
  {
    if n < 10 then [DigitChar(n)]
    else
      var r := Decimal(n / 10) + [DigitChar(n % 10)];
      assert r[..|r| - 1] == Decimal(n / 10);
      r
  }

  /** Different counts are printed differently. */
  lemma DecimalInjective(m: nat, n: nat)
    requires Decimal(m) == Decimal(n)
    ensures m == n
  {
  }

  predicate StartsWith(s: string, prefix: string) {
    |prefix| <= |s| && s[..|prefix|] == prefix
  }

  predicate EndsWith(s: string, suffix: string) {
    |suffix| <= |s| && s[|s| - |suffix|..] == suffix
  }

  /** `c.isspace()` for one byte of a Python 2 `str`. */
  predicate IsSpace(c: char) {
    c == ' ' || c == '\t' || c == '\n' || c == '\r' || c == '\U{000B}' || c == '\U{000C}'
  }

  predicate AllSpace(s: string) {
    forall i :: 0 <= i < |s| ==> IsSpace(s[i])
  }

  /** A non-empty string without whitespace: what survives tokenizing as one token. */
  predicate IsWord(s: string) {
    s != [] && forall i :: 0 <= i < |s| ==> !IsSpace(s[i])
  }

  /** `str.lower()` on one byte: only ASCII upper-case letters change. */
  function LowerChar(c: char): char {
    if 'A' <= c <= 'Z' then (c as int + 32) as char else c
  }

  /** `str.lower()`. */
  function Lower(s: string): string {
    seq(|s|, i requires 0 <= i < |s| => LowerChar(s[i]))
  }

  /** No ASCII upper-case letter. */
  predicate NoUpper(s: string) {
    forall i :: 0 <= i < |s| ==> !('A' <= s[i] <= 'Z')
  }

  /** Lower-casing leaves no upper-case letter, keeps length and everything
      that is not an upper-case letter, and applying it again changes nothing. */
  lemma LowerIdempotent(s: string)
    ensures |Lower(s)| == |s| && NoUpper(Lower(s))
    ensures forall i :: 0 <= i < |s| && !('A' <= s[i] <= 'Z') ==> Lower(s)[i] == s[i]
    ensures Lower(Lower(s)) == Lower(s)
  {
  }

  /** Two bytes that are equal, or are one ASCII letter in both cases. */
  predicate CaseVariants(x: char, y: char) {
    || x == y
    || ('A' <= x <= 'Z' && y as int == x as int + 32)
    || ('A' <= y <= 'Z' && x as int == y as int + 32)
  }

  /** Two strings that differ only in the case of ASCII letters. */
  predicate SameIgnoringCase(a: string, b: string) {
    |a| == |b| && forall i :: 0 <= i < |a| ==> CaseVariants(a[i], b[i])
  }

  /** Lower-casing identifies exactly the strings that differ only in case. */
  lemma {:induction false} LowerCaseInsensitive(a: string, b: string)
    ensures Lower(a) == Lower(b) <==> SameIgnoringCase(a, b)
  {
    if Lower(a) == Lower(b) {
      forall i | 0 <= i < |a|
        ensures CaseVariants(a[i], b[i])
      {
        assert LowerChar(a[i]) == Lower(a)[i] == Lower(b)[i] == LowerChar(b[i]);
      }
    }
    if SameIgnoringCase(a, b) {
      forall i | 0 <= i < |a|
        ensures Lower(a)[i] == Lower(b)[i]
      {
        assert Lower(a)[i] == LowerChar(a[i]) && Lower(b)[i] == LowerChar(b[i]);
      }
    }
  }

  /** `order` lists every element of `keys` once: how a Python dict's keys come
      out of iteration, in an order the model leaves open. */
  ghost predicate Enumerates<K>(order: seq<K>, keys: set<K>) {
    && |order| == |keys|
    && (forall i :: 0 <= i < |order| ==> order[i] in keys)
    && (forall k :: k in keys ==> k in order)
  }
}
