/** src/pages/Summarize.jsx: the `handle` routine of the summarisation page.
    It clears the page's result slots, uploads the chosen file, asks for a
    summary, turns whatever shape the server sent into either a trimmed
    paragraph or a list of bullets (or an error), and then asks for the
    document to be indexed. The three server calls are given as their
    outcomes: the parsed reply, or the text of what they threw. */
module SummarizePage {
  import opened Seqs

  /** A parsed JSON value (numbers keep only an integer value: the page
      looks at their type alone). */
  datatype Json =
    | JNull
    | JBool(b: bool)
    | JNum(n: int)
    | JStr(s: string)
    | JArr(items: seq<Json>)
    | JObj(fields: map<string, Json>)

  /** What an awaited call did: it returned a value, or it threw and
      `String(e)` is `message`. */
  datatype Outcome<T> = Returned(value: T) | Threw(message: string)

  const UnexpectedFormat := "Unexpected summary format from server."

  /** `res?.summary`: absent unless the reply is an object with that key. */
  function SummaryField(res: Json): (s: Option<Json>)
    ensures s.Some? <==> res.JObj? && "summary" in res.fields
  {
    if res.JObj? && "summary" in res.fields then Some(res.fields["summary"]) else None
  }

  /** `x => typeof x === 'string' ? { text: x } : x`. */
  function AsBullet(x: Json): (b: Json)
    ensures !b.JStr?
    ensures x.JStr? ==> b == JObj(map["text" := x])
    ensures !x.JStr? ==> b == x
  {
    if x.JStr? then JObj(map["text" := x]) else x
  }

  function Bullets(xs: seq<Json>): (bs: seq<Json>)
    ensures |bs| == |xs|
    ensures forall k :: 0 <= k < |xs| ==> bs[k] == AsBullet(xs[k])
  {
    seq(|xs|, k requires 0 <= k < |xs| => AsBullet(xs[k]))
  }

  /** JavaScript's whitespace for `trim()`: ECMAScript's WhiteSpace (tab,
      vertical tab, form feed, space, U+FEFF and the Unicode space
      separators) and LineTerminator (line feed, carriage return, U+2028,
      U+2029). Unlike Python's, it leaves U+001C to U+001F and U+0085 alone
      and does take U+FEFF. */
  predicate IsJsSpace(c: char)
  {
    ('\t' <= c <= '\r') || c == ' ' || c == '\U{00A0}' || c == '\U{1680}'
    || ('\U{2000}' <= c <= '\U{200A}') || c == '\U{2028}' || c == '\U{2029}'
    || c == '\U{202F}' || c == '\U{205F}' || c == '\U{3000}' || c == '\U{FEFF}'
  }

  /** Index just past the JavaScript whitespace that starts at `i`. */
  function TrimFrom(s: string, i: nat): (j: nat)
    requires i <= |s|
    ensures i <= j <= |s|
    ensures forall k :: i <= k < j ==> IsJsSpace(s[k])
    ensures j == |s| || !IsJsSpace(s[j])
    decreases |s| - i
  {
    if i < |s| && IsJsSpace(s[i]) then TrimFrom(s, i + 1) else i
  }

  /** Index where the JavaScript whitespace that ends at `j` starts, not
      going below `lo`. */
  function TrimTo(s: string, lo: nat, j: nat): (e: nat)
    requires lo <= j <= |s|
    ensures lo <= e <= j
    ensures forall k :: e <= k < j ==> IsJsSpace(s[k])
    ensures e == lo || !IsJsSpace(s[e - 1])
    decreases j
  {
    if lo < j && IsJsSpace(s[j - 1]) then TrimTo(s, lo, j - 1) else j
  }

  /** `String.prototype.trim()`: the slice of `s` between its leading and
      trailing JavaScript whitespace. Only whitespace lies outside it, it
      begins and ends with a non-whitespace character unless it is empty,
      and it is empty exactly when `s` is all whitespace. */
  function Trim(s: string): (r: string)
    ensures var i := TrimFrom(s, 0);
      && i + |r| <= |s| && r == s[i..i + |r|]
      && (forall k :: 0 <= k < i ==> IsJsSpace(s[k]))
      && (forall k :: i + |r| <= k < |s| ==> IsJsSpace(s[k]))
    ensures r == [] || (!IsJsSpace(r[0]) && !IsJsSpace(r[|r| - 1]))
    ensures r == [] <==> forall k :: 0 <= k < |s| ==> IsJsSpace(s[k])
  {
    var i := TrimFrom(s, 0);
    var j := TrimTo(s, i, |s|);
    assert i == j ==> forall k :: 0 <= k < |s| ==> IsJsSpace(s[k]);
    s[i..j]
  }

  /** `trim()` keeps the separator U+001C that Python strips, and removes
      the U+FEFF that Python keeps. */
  lemma TrimIsNotStrip()
    ensures Trim("\U{001C}") == "\U{001C}"
    ensures Trim("\U{FEFF}") == ""
  {
    assert TrimFrom("\U{001C}", 0) == 0;
  }

  /** The result slots `para`, `bullets` and `error`. */
  datatype Slots = Slots(para: string, bullets: seq<Json>, error: string)

  /** The slots after the normalisation, starting from cleared slots. */
  function Normalize(s: Option<Json>): (v: Slots)
    ensures v.para == "" || v.bullets == []
    ensures v.error == "" || (v.para == "" && v.bullets == [])
  {
    match s
    case Some(JArr(xs)) => Slots("", Bullets(xs), "")
    case Some(JStr(t)) => Slots(Trim(t), [], "")
    case _ => Slots("", [], UnexpectedFormat)
  }

  /** An array becomes bullets of the same length and order, strings
      wrapped as `{text}` and everything else passed through, with no
      paragraph and no error; a string becomes its trimmed self as the
      paragraph; anything else, a missing field included, is the fixed
      error with both results empty. */
  lemma NormalizeShapes(s: Option<Json>)
    ensures var v := Normalize(s);
      && (s.Some? && s.value.JArr? ==>
            && v.para == "" && v.error == ""
            && |v.bullets| == |s.value.items|
            && (forall k :: 0 <= k < |v.bullets| ==>
                  (s.value.items[k].JStr? ==> v.bullets[k] == JObj(map["text" := s.value.items[k]]))
                  && (!s.value.items[k].JStr? ==> v.bullets[k] == s.value.items[k])))
      && (s.Some? && s.value.JStr? ==>
            && v.para == Trim(s.value.s) && v.bullets == [] && v.error == ""
            && (v.para == [] || (!IsJsSpace(v.para[0]) && !IsJsSpace(v.para[|v.para| - 1]))))
      && (!(s.Some? && (s.value.JArr? || s.value.JStr?)) ==>
            v == Slots("", [], UnexpectedFormat))
  {
  }

  /** At most one of paragraph and bullets is filled, no bullet is a bare
      string, and the error is set exactly when neither shape was
      recognised. */
  lemma NormalizeExclusive(s: Option<Json>)
    ensures var v := Normalize(s);
      && (v.para == "" || v.bullets == [])
      && (forall k :: 0 <= k < |v.bullets| ==> !v.bullets[k].JStr?)
      && (v.error != "" <==> !(s.Some? && (s.value.JArr? || s.value.JStr?)))
  {
  }

  /** The backend's `{"error": ...}` reply, which the client parses without
      complaint, shows the fixed error and no summary. */
  lemma ErrorReplyIsUnexpected(msg: string)
    ensures Normalize(SummaryField(JObj(map["error" := JStr(msg)]))) == Slots("", [], UnexpectedFormat)
  {
  }

  /** The page's state slots. */
  class SummarizeState {
    var doc: Option<Json>
    var mode: string
    var para: string
    var bullets: seq<Json>
    var loading: bool
    var error: string

    /** The slots' initial values. */
    constructor ()
      ensures doc == None && mode == "abstractive" && para == "" && bullets == []
      ensures !loading && error == ""
    {
      doc := None;
      mode := "abstractive";
      para := "";
      bullets := [];
      loading := false;
      error := "";
    }

    /** `handle()`, given what `uploadDoc`, `summarize` and `indexDoc`
        do (the upload route always answers with an object). The slots are
        cleared first; a throwing call ends the run with its text as the
        error; the summary is normalised; a failing `indexDoc` replaces the
        error but keeps the summary; `loading` is false at the end either
        way, and at most one of paragraph and bullets is filled. */
    method Handle(up: Outcome<map<string, Json>>, res: Outcome<Json>, indexed: Outcome<Json>)
      modifies this
      ensures !loading && mode == old(mode)
      ensures para == "" || bullets == []
      ensures up.Threw? ==> para == "" && bullets == [] && error == up.message && doc == old(doc)
      ensures up.Returned? ==> doc == Some(JObj(up.value))
      ensures up.Returned? && res.Threw? ==> para == "" && bullets == [] && error == res.message
      ensures up.Returned? && res.Returned? ==>
        var v := Normalize(SummaryField(res.value));
        && para == v.para && bullets == v.bullets
        && error == (if indexed.Threw? then indexed.message else v.error)
    {
      error := "";
      para := "";
      bullets := [];
      loading := true;
      if up.Threw? {
        error := up.message;
        loading := false;
        return;
      }
      doc := Some(JObj(up.value));
      if res.Threw? {
        error := res.message;
        loading := false;
        return;
      }
      var s := SummaryField(res.value);
      if s.Some? && s.value.JArr? {
        bullets := Bullets(s.value.items);
      } else if s.Some? && s.value.JStr? {
        para := Trim(s.value.s);
      } else {
        error := UnexpectedFormat;
      }
      if indexed.Threw? {
        error := indexed.message;
      }
      loading := false;
    }
  }
}
