/** The JSON-like values the Python code receives (request bodies, listing
    records) plus the datetimes it puts into them, with the few Python
    operations the modelled code applies to them: truthiness, `k in v` and
    `v[k]`. A dict is a sequence of entries in its iteration order. */
module Values {
  import opened Base
  import opened Calendar

  datatype Value =
    | VNull
    | VBool(b: bool)
    | VInt(i: int)
    | VStr(s: string)
    | VList(items: seq<Value>)
    | VDict(entries: seq<Entry>)
    | VTime(t: DateTime)

  datatype Entry = Entry(key: string, val: Value)

  /** `not v` in Python. A datetime is always true. */
  predicate Falsy(v: Value)
  {
    match v
    case VNull => true
    case VBool(b) => !b
    case VInt(i) => i == 0
    case VStr(s) => |s| == 0
    case VList(items) => |items| == 0
    case VDict(entries) => |entries| == 0
    case VTime(_) => false
  }

  predicate HasKey(entries: seq<Entry>, k: string)
  {
    exists i :: 0 <= i < |entries| && entries[i].key == k
  }

  /** The value stored under `k`, or None when the dict has no such key.
      When the key occurs more than once the last occurrence wins, as in the
      dict `json.loads` builds. */
  function Get(entries: seq<Entry>, k: string): (r: Option<Value>)
    ensures r.Some? <==> HasKey(entries, k)
    ensures r.Some? ==> exists i :: 0 <= i < |entries| && entries[i] == Entry(k, r.value)
  {
    if |entries| == 0 then None
    else
      var n := |entries| - 1;
      if entries[n].key == k then Some(entries[n].val)
      else
        var r := Get(entries[..n], k);
        assert HasKey(entries, k) <==> HasKey(entries[..n], k) by {
          if HasKey(entries, k) {
            var i :| 0 <= i < |entries| && entries[i].key == k;
            assert entries[..n][i].key == k;
          }
        }
        assert r.Some? ==> exists i :: 0 <= i < |entries| && entries[i] == Entry(k, r.value) by {
          if r.Some? {
            var i :| 0 <= i < |entries[..n]| && entries[..n][i] == Entry(k, r.value);
            assert entries[i] == Entry(k, r.value);
          }
        }
        r
  }

  /** The value found for `k` is the one of its last occurrence. */
  lemma {:induction false} GetLast(entries: seq<Entry>, k: string, i: nat)
    requires i < |entries| && entries[i].key == k
    requires forall j :: i < j < |entries| ==> entries[j].key != k
    ensures Get(entries, k) == Some(entries[i].val)
  {
    var n := |entries| - 1;
    if i < n {
      assert entries[n].key != k;
      forall j | i < j < n ensures entries[..n][j].key != k {
        assert entries[..n][j] == entries[j];
      }
      GetLast(entries[..n], k, i);
    }
  }

  /** `k` occurs somewhere in `s`. */
  predicate IsSubstring(k: string, s: string)
  {
    |k| <= |s| && (k == s[..|k|] || IsSubstring(k, s[1..]))
  }

  /** `k in v` for a text `k`: dict membership by key, list membership by
      equality, substring search in a text; a TypeError for anything else. */
  function Contains(v: Value, k: string): (r: Result<bool, PyException>)
    ensures v.VDict? ==> r == Ok(HasKey(v.entries, k))
    ensures r.Err? <==> !(v.VDict? || v.VList? || v.VStr?)
    ensures r.Err? ==> r.error == TypeError
  {
    match v
    case VDict(entries) => Ok(HasKey(entries, k))
    case VList(items) => Ok(VStr(k) in items)
    case VStr(s) => Ok(IsSubstring(k, s))
    case _ => Err(TypeError)
  }

  /** `v[k]` for a text `k`: a KeyError on a dict without the key, a
      TypeError on anything but a dict. */
  function Subscript(v: Value, k: string): (r: Result<Value, PyException>)
    ensures r.Ok? <==> v.VDict? && HasKey(v.entries, k)
    ensures r.Ok? ==> Get(v.entries, k) == Some(r.value)
  {
    match v
    case VDict(entries) =>
      (match Get(entries, k)
       case Some(x) => Ok(x)
       case None => Err(KeyError))
    case _ => Err(TypeError)
  }
}
