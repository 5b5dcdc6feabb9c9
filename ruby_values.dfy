/** Decoded JSON values as the two servers see them after
    `JSON.parse(line, symbolize_names: true)`, together with the few Ruby
    operations the servers apply to them: truthiness, `||`, `h[:key]`,
    `dig`, `to_s` and `strip`.

    Ruby's `nil` and JSON's `null` are the same value here (`JNull`): a key
    that is absent from an object and a key bound to `null` read alike.
    Because every key is symbolised, a lookup with a string key
    (`args['cmd']`) always yields `nil`; the model therefore only has symbol
    lookups. */
module RubyValues {

  /** One byte of a file or of a child process's output. */
  newtype byte = x: int | 0 <= x < 256

  datatype Json =
    | JNull
    | JBool(b: bool)
    | JInt(i: int)
    | JStr(s: string)
    | JArr(items: seq<Json>)
    | JObj(members: seq<Member>)

  /** An object member; objects keep their keys in insertion order, as Ruby hashes do. */
  datatype Member = Member(key: string, value: Json)

  /** The exceptions the servers' own code can raise. Ruby's exact message
      text is not modelled; the constructor says which error it was. */
  datatype Fault =
    | IndexOnNil(key: string)        // NoMethodError: undefined method '[]' for nil
    | IndexOnNonHash(target: Json)   // TypeError (Array/String/Integer) or NoMethodError (true/false)
    | DigOnNonHash(target: Json)     // TypeError: ... does not have #dig method (or Array#dig with a Symbol)
    | UndefinedName(name: string)    // NameError: undefined local variable or method

  datatype Option<+T> = None | Some(value: T)

  /** The outcome of a call into code outside the model (a file system call,
      a process spawn, an HTTP client): a value, or an exception's message. */
  datatype Attempt<+T> = Done(value: T) | Raised(message: string)

  /** Ruby truthiness: only `nil` and `false` are falsy. */
  predicate Truthy(v: Json) {
    v != JNull && v != JBool(false)
  }

  /** `a || b` */
  function Or(a: Json, b: Json): (r: Json)
    ensures Truthy(a) ==> r == a
    ensures !Truthy(a) ==> r == b
  {
    if Truthy(a) then a else b
  }

  /** `h[key]` on a Hash: the value bound to `key`, or `nil`. When a JSON
      object repeats a key, `JSON.parse` keeps the last value, so the last
      binding wins here too. */
  function Get(members: seq<Member>, key: string): (r: Json)
    ensures (forall i :: 0 <= i < |members| ==> members[i].key != key) ==> r == JNull
  {
    if members == [] then JNull
    else if members[|members| - 1].key == key then members[|members| - 1].value
    else Get(members[..|members| - 1], key)
  }

  /** The binding a lookup finds: the last one for its key. */
  lemma {:induction false} GetAt(members: seq<Member>, i: nat, key: string)
    requires i < |members| && members[i].key == key
    requires forall j :: i < j < |members| ==> members[j].key != key
    ensures Get(members, key) == members[i].value
    decreases |members|
  {
    if i < |members| - 1 {
      GetAt(members[..|members| - 1], i, key);
    }
  }

  /** `v[:key]` for any decoded value: only a Hash can be indexed by a Symbol. */
  function Index(v: Json, key: string): (r: Result<Json>)
    ensures r.Ok? <==> v.JObj?
    ensures v.JObj? ==> r.value == Get(v.members, key)
    ensures v == JNull ==> r == Fail(IndexOnNil(key))
  {
    match v
    case JObj(ms) => Ok(Get(ms, key))
    case JNull => Fail(IndexOnNil(key))
    case _ => Fail(IndexOnNonHash(v))
  }

  /** `h.dig(first, key)` where `h[first]` is `v`: `nil` stops the walk,
      a Hash is indexed, anything else raises. */
  function DigFrom(v: Json, key: string): (r: Result<Json>)
    ensures r.Ok? <==> (v == JNull || v.JObj?)
    ensures v == JNull ==> r == Ok(JNull)
    ensures v.JObj? ==> r == Ok(Get(v.members, key))
  {
    match v
    case JNull => Ok(JNull)
    case JObj(ms) => Ok(Get(ms, key))
    case _ => Fail(DigOnNonHash(v))
  }

  /** A computation of the servers' own code: a value or a raised exception. */
  datatype Result<+T> = Ok(value: T) | Fail(fault: Fault)

  /** Decimal digits of a natural number. */
  function Digits(n: nat): (r: string)
    ensures |r| > 0
    ensures forall i :: 0 <= i < |r| ==> '0' <= r[i] <= '9'
    decreases n
  {
    var d := [(('0' as int) + n % 10) as char];
    if n < 10 then d else Digits(n / 10) + d
  }

  /** `Object#to_s` of a decoded value. Arrays and hashes print through
      `inspect`; strings inside them are quoted without escaping. */
  function ToS(v: Json): (r: string)
    ensures r == "" <==> (v == JNull || v == JStr(""))
    ensures v.JStr? ==> r == v.s
  {
    match v
    case JNull => ""
    case JStr(s) => s
    case _ => Inspect(v)
  }

  /** `inspect`, in the form Ruby 3.4 prints it for symbol-keyed hashes. */
  function Inspect(v: Json): (r: string)
    ensures |r| > 0
    decreases v, 1
  {
    match v
    case JNull => "nil"
    case JBool(b) => if b then "true" else "false"
    case JInt(i) => if i < 0 then "-" + Digits(-i) else Digits(i)
    case JStr(s) => "\"" + s + "\""
    case JArr(items) => "[" + InspectItems(v, items) + "]"
    case JObj(ms) => "{" + InspectMembers(v, ms) + "}"
  }

  function InspectItems(parent: Json, items: seq<Json>): string
    requires forall x :: x in items ==> x < parent
    decreases parent, 0, |items|
  {
    if items == [] then ""
    else
      assert items[0] in items;
      if |items| == 1 then Inspect(items[0])
      else
        assert forall x :: x in items[1..] ==> x in items;
        Inspect(items[0]) + ", " + InspectItems(parent, items[1..])
  }

  function InspectMembers(parent: Json, ms: seq<Member>): string
    requires forall m :: m in ms ==> m.value < parent
    decreases parent, 0, |ms|
  {
    if ms == [] then ""
    else
      assert ms[0] in ms;
      var first := ms[0].key + ": " + Inspect(ms[0].value);
      if |ms| == 1 then first else first + ", " + InspectMembers(parent, ms[1..])
  }

  /** The characters `String#strip` removes: NUL, tab, line feed, vertical
      tab, form feed, carriage return and space. */
  predicate IsSpace(c: char) {
    c == '\0' || c == '\t' || c == '\n' || c == 11 as char || c == 12 as char || c == '\r' || c == ' '
  }

  predicate AllSpace(s: string) {
    forall i :: 0 <= i < |s| ==> IsSpace(s[i])
  }

  /** No whitespace at either end. */
  predicate Trimmed(s: string) {
    s == [] || (!IsSpace(s[0]) && !IsSpace(s[|s| - 1]))
  }

  /** The length of the run of whitespace that starts `s`. */
  function LeadingSpaces(s: string): (n: nat)
    ensures n <= |s|
    ensures forall k :: 0 <= k < n ==> IsSpace(s[k])
    ensures n < |s| ==> !IsSpace(s[n])
  {
    if s != [] && IsSpace(s[0]) then 1 + LeadingSpaces(s[1..]) else 0
  }

  /** The length of the run of whitespace that ends `s`. */
  function TrailingSpaces(s: string): (n: nat)
    ensures n <= |s|
    ensures forall k :: |s| - n <= k < |s| ==> IsSpace(s[k])
    ensures n < |s| ==> !IsSpace(s[|s| - n - 1])
  {
    if s != [] && IsSpace(s[|s| - 1]) then 1 + TrailingSpaces(s[..|s| - 1]) else 0
  }

  /** `String#strip`: `lstrip`, then `rstrip`. */
  function Strip(s: string): (r: string)
  {
    var t := s[LeadingSpaces(s)..];
    t[..|t| - TrailingSpaces(t)]
  }

  /** What `strip` returns is the input with a run of whitespace cut from
      each end, and has no whitespace left at either end. */
  lemma StripSplits(s: string)
    ensures Trimmed(Strip(s))
    ensures exists i, j :: 0 <= i <= j <= |s| && Strip(s) == s[i..j] && AllSpace(s[..i]) && AllSpace(s[j..])
  {
    var i := LeadingSpaces(s);
    var t := s[i..];
    var m := TrailingSpaces(t);
    var j := |s| - m;
    assert Strip(s) == s[i..j];
    assert AllSpace(s[..i]) by {
      forall k | 0 <= k < i ensures IsSpace(s[..i][k]) {
        assert s[..i][k] == s[k];
      }
    }
    assert AllSpace(s[j..]) by {
      forall k | 0 <= k < |s| - j ensures IsSpace(s[j..][k]) {
        assert s[j..][k] == t[|t| - m + k];
      }
    }
  }

  /** Cutting whitespace runs from the ends of an already trimmed string
      gives that string back, so the decomposition of `StripSplits` is the
      only one: `strip` is fully determined by it. */
  lemma StripOfPadded(pre: string, mid: string, post: string)
    requires AllSpace(pre) && AllSpace(post) && Trimmed(mid)
    ensures Strip(pre + mid + post) == mid
  {
    var s := pre + mid + post;
    var n := |pre| + |mid|;
    assert forall k :: 0 <= k < |pre| ==> s[k] == pre[k];
    assert forall k :: n <= k < |s| ==> s[k] == post[k - n];
    if mid == [] {
      LeadingUnique(s, |s|);
    } else {
      assert s[|pre|] == mid[0];
      LeadingUnique(s, |pre|);
      var t := s[|pre|..];
      assert t == mid + post;
      assert forall k :: |mid| <= k < |t| ==> t[k] == post[k - |mid|];
      assert t[|mid| - 1] == mid[|mid| - 1];
      TrailingUnique(t, |post|);
      assert t[..|mid|] == mid;
    }
  }

  /** A whitespace run followed by a non-space (or the end) is the leading run. */
  lemma LeadingUnique(s: string, n: nat)
    requires n <= |s| && (forall k :: 0 <= k < n ==> IsSpace(s[k])) && (n < |s| ==> !IsSpace(s[n]))
    ensures LeadingSpaces(s) == n
  {
  }

  lemma TrailingUnique(s: string, n: nat)
    requires n <= |s| && (forall k :: |s| - n <= k < |s| ==> IsSpace(s[k])) && (n < |s| ==> !IsSpace(s[|s| - n - 1]))
    ensures TrailingSpaces(s) == n
  {
  }

  /** `(h[:key] || h['key']).to_s`, where `given` is `h[:key]`. The keys
      being symbols, the string-keyed lookup is always nil. */
  function StringForm(given: Json): (s: string)
    ensures s == "" <==> !Truthy(given) || given == JStr("")
    ensures given.JStr? ==> s == given.s
  {
    ToS(Or(given, JNull))
  }

  /** `(h[:key] || h['key']).to_s.strip`: how both servers read a string
      argument (`cmd`, `issue_key`). */
  function StrippedForm(given: Json): (s: string)
    ensures Trimmed(s)
    ensures given.JStr? ==> s == Strip(given.s)
    ensures !Truthy(given) ==> s == ""
  {
    StripSplits(StringForm(given));
    Strip(StringForm(given))
  }

  /** `strip` is idempotent. */
  lemma {:induction false} StripIdempotent(s: string)
    ensures Strip(Strip(s)) == Strip(s)
  {
    StripSplits(s);
    StripOfPadded([], Strip(s), []);
    assert [] + Strip(s) + [] == Strip(s);
  }

  /** The text of a byte string, one character per byte (a Ruby binary
      string seen as characters). */
  function Text(b: seq<byte>): (r: string)
    ensures |r| == |b|
    ensures forall i :: 0 <= i < |b| ==> r[i] == b[i] as int as char
  {
    if b == [] then "" else Text(b[..|b| - 1]) + [b[|b| - 1] as int as char]
  }

  /** Appending bytes appends their text. */
  lemma TextAppend(a: seq<byte>, b: seq<byte>)
    ensures Text(a + b) == Text(a) + Text(b)
  {
  }
}
