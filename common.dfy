/** Values shared by every part of the model: optional values, the
    status-plus-payload replies the handlers send, the loosely typed
    JavaScript values the utility functions accept, and the small text
    helpers the handlers use on request strings. */
module Common {

  datatype Option<+T> = None | Some(value: T)

  /** An HTTP reply: a success status with its payload, or an error status
      with the `message` of the `{status: 'error', message}` envelope. */
  datatype Reply<+T> = Ok(status: int, value: T) | Err(status: int, message: string)

  /** The payload of a signed token: `{userId, email}`. */
  datatype Claims = Claims(userId: int, email: string)

  /** A JavaScript value as it can arrive in a request body or a row. */
  datatype JsValue =
    | JsUndefined
    | JsNull
    | JsBool(b: bool)
    | JsNumber(n: real)
    | JsString(s: string)

  /** JavaScript truthiness of a value (NaN is not modelled). */
  predicate Truthy(v: JsValue)
  {
    match v
    case JsUndefined => false
    case JsNull => false
    case JsBool(b) => b
    case JsNumber(n) => n != 0.0
    case JsString(s) => s != ""
  }

  /** `!x` is false for a request field: it is present and not the empty string. */
  predicate Given(x: Option<string>)
  {
    x.Some? && x.value != ""
  }

  /** `!x` is false for a numeric id field: present and not 0. */
  predicate GivenId(x: Option<int>)
  {
    x.Some? && x.value != 0
  }

  /** `xs` keeps its elements in the order `of` has them. */
  predicate IsSubsequence<T(==)>(xs: seq<T>, of: seq<T>)
  {
    if xs == [] then true
    else if of == [] then false
    else (xs[0] == of[0] && IsSubsequence(xs[1..], of[1..])) || IsSubsequence(xs, of[1..])
  }

  /** No element of `xs` appears twice. */
  predicate Distinct<T(==)>(xs: seq<T>)
  {
    forall a, b :: 0 <= a < b < |xs| ==> xs[a] != xs[b]
  }

  /** The characters `String.prototype.trim` removes: the white space and
      line terminator code points of ECMAScript. */
  predicate IsSpace(c: char)
  {
    c == '\t' || c == '\n' || c == '\U{B}' || c == '\U{C}' || c == '\r' || c == ' ' ||
    c == '\U{A0}' || c == '\U{1680}' || ('\U{2000}' <= c <= '\U{200A}') ||
    c == '\U{2028}' || c == '\U{2029}' || c == '\U{202F}' || c == '\U{205F}' ||
    c == '\U{3000}' || c == '\U{FEFF}'
  }

  function TrimStart(s: string): (r: string)
    ensures |r| <= |s| && r == s[|s| - |r|..]
    ensures r == "" || !IsSpace(r[0])
    ensures forall i :: 0 <= i < |s| - |r| ==> IsSpace(s[i])
  {
    if s != "" && IsSpace(s[0]) then TrimStart(s[1..]) else s
  }

  function TrimEnd(s: string): (r: string)
    ensures |r| <= |s| && r == s[..|r|]
    ensures r == "" || !IsSpace(r[|r| - 1])
    ensures forall i :: |r| <= i < |s| ==> IsSpace(s[i])
  {
    if s != "" && IsSpace(s[|s| - 1]) then TrimEnd(s[..|s| - 1]) else s
  }

  /** `r` is `s` from offset `a` with only whitespace cut off on either side. */
  predicate StripsTo(s: string, r: string, a: int)
  {
    0 <= a <= |s| - |r| && r == s[a..a + |r|] &&
    (forall i :: 0 <= i < a ==> IsSpace(s[i])) && (forall i :: a + |r| <= i < |s| ==> IsSpace(s[i]))
  }

  /** `s.trim()`: the text with leading and trailing whitespace removed. */
  function Trim(s: string): (r: string)
    ensures r == "" || (!IsSpace(r[0]) && !IsSpace(r[|r| - 1]))
    ensures exists a :: StripsTo(s, r, a)
  {
    TrimStrips(s);
    TrimEnd(TrimStart(s))
  }

  /** Trimming the start and then the end cuts only whitespace off `s`. */
  lemma TrimStrips(s: string)
    ensures StripsTo(s, TrimEnd(TrimStart(s)), |s| - |TrimStart(s)|)
  {
    var t := TrimStart(s);
    StripsBothEnds(s, t, TrimEnd(t));
  }

  /** Cutting a whitespace prefix off `s` and then a whitespace suffix off the rest
      leaves a slice of `s` with only whitespace around it. */
  lemma StripsBothEnds(s: string, t: string, r: string)
    requires |t| <= |s| && t == s[|s| - |t|..]
    requires forall i :: 0 <= i < |s| - |t| ==> IsSpace(s[i])
    requires |r| <= |t| && r == t[..|r|]
    requires forall j :: |r| <= j < |t| ==> IsSpace(t[j])
    ensures StripsTo(s, r, |s| - |t|)
  {
    var a := |s| - |t|;
    assert r == s[a..a + |r|];
    forall i | a + |r| <= i < |s| ensures IsSpace(s[i]) {
      assert s[i] == t[i - a];
    }
  }

  lemma {:induction false} TrimEmptyIffBlank(s: string)
    ensures Trim(s) == "" <==> forall i :: 0 <= i < |s| ==> IsSpace(s[i])
  {
    var a := TrimStart(s);
    if Trim(s) != "" {
      var r := Trim(s);
      assert r == a[..|r|];
      assert !IsSpace(a[0]);
      assert a[0] == s[|s| - |a|];
    }
  }

  /** ASCII lower-casing: the only case folding SQLite's LIKE performs. */
  function LowerChar(c: char): (r: char)
    ensures ('A' <= c <= 'Z') ==> r as int == c as int + 32
    ensures !('A' <= c <= 'Z') ==> r == c
  {
    if 'A' <= c <= 'Z' then (c as int + 32) as char else c
  }

  /** `pattern` occurs in `text` at offset `p`, ignoring ASCII case. */
  predicate OccursAtIgnoringCase(text: string, pattern: string, p: int)
  {
    0 <= p && p + |pattern| <= |text| &&
    forall k :: 0 <= k < |pattern| ==> LowerChar(text[p + k]) == LowerChar(pattern[k])
  }

  /** `text LIKE '%pattern%'` read as a case-insensitive substring test. */
  function ContainsIgnoringCase(text: string, pattern: string): (r: bool)
    ensures r <==> exists p :: OccursAtIgnoringCase(text, pattern, p)
  {
    SearchFrom(text, pattern, 0)
  }

  function SearchFrom(text: string, pattern: string, from: nat): (r: bool)
    requires from <= |text| + 1
    ensures r <==> exists p :: from <= p && OccursAtIgnoringCase(text, pattern, p)
    decreases |text| + 1 - from
  {
    if from > |text| then false
    else OccursAtIgnoringCase(text, pattern, from) || SearchFrom(text, pattern, from + 1)
  }
}
