/** The few pieces of the Python runtime that minirest.py leans on: Python
    values as far as the binder sees them, `collections.OrderedDict` with
    string keys, and `str.strip()`. */
module PyRuntime {

  /** A Python object as the binder handles it: `None`, a string (every query
      value is one), an integer, or any other object, told apart by identity. */
  datatype Value = PyNone | Str(s: string) | Int(i: int) | Object(id: nat)

  /** The exceptions that escape minirest.py's own code: `AttributeError`
      from stripping a missing docstring, the `ValueError`/`TypeError` of
      `inspect.signature` on a callable it cannot introspect,
      `UnboundLocalError` from the unvalidated binding branch, and
      `AssertionError` from a failed `assert False, message`. */
  datatype Exception =
    | AttributeError
    | SignatureUnreadable
    | UnboundLocalError
    | AssertionError(message: string)

  /** An OrderedDict with string keys: its items in insertion order. */
  type OrderedDict<V> = seq<(string, V)>

  /** The dictionary invariant: no key occurs twice. */
  predicate DistinctKeys<V>(d: OrderedDict<V>)
  {
    forall i, j :: 0 <= i < j < |d| ==> d[i].0 != d[j].0
  }

  predicate HasKey<V>(d: OrderedDict<V>, k: string)
  {
    exists i :: 0 <= i < |d| && d[i].0 == k
  }

  /** The keys of `d`, in insertion order. */
  function Keys<V>(d: OrderedDict<V>): (ks: seq<string>)
    ensures |ks| == |d|
    ensures forall i :: 0 <= i < |d| ==> ks[i] == d[i].0
  {
    if d == [] then [] else [d[0].0] + Keys(d[1..])
  }

  /** The position of key `k` in `d`, or `|d|` when `k` is not a key. */
  function FindKey<V>(d: OrderedDict<V>, k: string): (i: nat)
    ensures i <= |d|
    ensures i < |d| ==> d[i].0 == k
    ensures forall j :: 0 <= j < i ==> d[j].0 != k
  {
    if d == [] then 0
    else if d[0].0 == k then 0
    else 1 + FindKey(d[1..], k)
  }

  /** `d[k] = v`: an existing key keeps its position and takes the new value;
      a new key goes to the end. */
  function Put<V>(d: OrderedDict<V>, k: string, v: V): (r: OrderedDict<V>)
    requires DistinctKeys(d)
    ensures DistinctKeys(r)
    ensures HasKey(r, k)
    ensures !HasKey(d, k) ==> r == d + [(k, v)]
    ensures HasKey(d, k) ==> |r| == |d|
    ensures forall i :: 0 <= i < |d| && d[i].0 != k ==> r[i] == d[i]
    ensures forall i :: 0 <= i < |r| && r[i].0 == k ==> r[i].1 == v
  {
    var i := FindKey(d, k);
    var r := if i < |d| then d[i := (k, v)] else d + [(k, v)];
    assert r[i].0 == k;
    r
  }

  /** Setting a key the dictionary does not hold appends it. This is `Put`'s
      third postcondition with `HasKey` unfolded, stated on its own so that
      the binder's proofs find the instance they need. */
  lemma PutNewKey<V>(d: OrderedDict<V>, k: string, v: V)
    requires DistinctKeys(d)
    requires forall j :: 0 <= j < |d| ==> d[j].0 != k
    ensures Put(d, k, v) == d + [(k, v)]
  {
  }

  /** `str.isspace()` for one character: the characters Python strips. */
  predicate IsSpace(c: char)
  {
    || ('\t' <= c <= '\r')
    || ('\U{1C}' <= c <= '\U{1F}')
    || c == ' '
    || c == '\U{85}'
    || c == '\U{A0}'
    || c == '\U{1680}'
    || ('\U{2000}' <= c <= '\U{200A}')
    || c == '\U{2028}'
    || c == '\U{2029}'
    || c == '\U{202F}'
    || c == '\U{205F}'
    || c == '\U{3000}'
  }

  predicate AllSpace(s: string)
  {
    forall k :: 0 <= k < |s| ==> IsSpace(s[k])
  }

  /** `str.lstrip()`: drops the leading whitespace. */
  function StripStart(s: string): (r: string)
    ensures |r| <= |s| && r == s[|s| - |r|..]
    ensures AllSpace(s[..|s| - |r|])
    ensures r == [] || !IsSpace(r[0])
  {
    if s != [] && IsSpace(s[0]) then
      var r := StripStart(s[1..]);
      assert s[..|s| - |r|] == [s[0]] + s[1..][..|s| - 1 - |r|];
      r
    else s
  }

  /** `str.rstrip()`: drops the trailing whitespace. */
  function StripEnd(s: string): (r: string)
    ensures |r| <= |s| && r == s[..|r|]
    ensures AllSpace(s[|r|..])
    ensures r == [] || !IsSpace(r[|r| - 1])
  {
    if s != [] && IsSpace(s[|s| - 1]) then
      var r := StripEnd(s[..|s| - 1]);
      assert s[|r|..] == s[..|s| - 1][|r|..] + [s[|s| - 1]];
      r
    else s
  }

  /** `r` is what is left of `s` once only whitespace has been cut from
      either end. */
  ghost predicate TrimmedFrom(r: string, s: string)
  {
    exists i :: 0 <= i <= |s| - |r| && s[i..i + |r|] == r && AllSpace(s[..i]) && AllSpace(s[i + |r|..])
  }

  lemma TrimmedAt(r: string, s: string, i: nat)
    requires i <= |s| - |r| && s[i..i + |r|] == r && AllSpace(s[..i]) && AllSpace(s[i + |r|..])
    ensures TrimmedFrom(r, s)
  {
  }

  /** `str.strip()`: `s` without its leading and trailing whitespace. */
  function Strip(s: string): (r: string)
    ensures r == [] || (!IsSpace(r[0]) && !IsSpace(r[|r| - 1]))
  {
    StripEnd(StripStart(s))
  }

  /** `strip` cuts nothing but whitespace, and only from the ends. */
  lemma StripCutsOnlySpace(s: string)
    ensures TrimmedFrom(Strip(s), s)
  {
    var t := StripStart(s);
    var r := StripEnd(t);
    var i := |s| - |t|;
    assert s[i..i + |r|] == r;
    assert s[i + |r|..] == t[|r|..];
    TrimmedAt(r, s, i);
  }

  /** Stripping a string that already has no surrounding whitespace changes
      nothing, so `strip` is idempotent. */
  lemma StripTrimmed(s: string)
    requires s == [] || (!IsSpace(s[0]) && !IsSpace(s[|s| - 1]))
    ensures Strip(s) == s
  {
  }

  lemma StripIdempotent(s: string)
    ensures Strip(Strip(s)) == Strip(s)
  {
    StripTrimmed(Strip(s));
  }
}
