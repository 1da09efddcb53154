/**
 * Request parameters and request headers of the Requester, and the two ways
 * parameters are serialised: as a URL query string (values form-encoded) and
 * as a `key=value&…` form body (values written as they are).
 */
module Params {
  import opened Wire
  import UrlEncoding

  /** The objects the `with` overloads store; collections and maps in iteration order. */
  datatype ArgValue =
    | Int(i: int)                          // int, Integer, BigInteger
    | Bool(b: bool)                        // boolean, Boolean
    | Str(s: string)                       // String, and an enum after `EnumText`
    | Strings(items: seq<string>)          // Collection<String>
    | Dict(pairs: seq<(string, string)>)   // Map<String, String>

  /** One element of `args`; the value is `None` only after `set(key, null)`. */
  datatype Entry = Entry(key: string, value: Option<ArgValue>)

  /** One entry of the `headers` LinkedHashMap, in insertion order. */
  datatype Slot = Slot(name: string, value: Option<string>)

  // ---------------------------------------------------------------------------
  // toString of the stored values

  function DigitChar(d: int): char
    requires 0 <= d < 10
  {
    ('0' as int + d) as char
  }

  predicate AllDigits(s: string) {
    forall i :: 0 <= i < |s| ==> '0' <= s[i] <= '9'
  }

  /** Decimal digits of `n`, most significant first, without leading zeros. */
  function NatText(n: nat): (s: string)
    ensures |s| >= 1 && AllDigits(s)
    ensures n >= 10 ==> s[0] != '0'
  {
    if n < 10 then [DigitChar(n)] else NatText(n / 10) + [DigitChar(n % 10)]
  }

  /** `Integer.toString` / `BigInteger.toString`: a minus sign, then the digits. */
  function IntText(n: int): string {
    if n < 0 then "-" + NatText(-n) else NatText(n)
  }

  function DigitsValue(s: string): nat
    requires AllDigits(s)
  {
    if s == [] then 0 else DigitsValue(s[..|s| - 1]) * 10 + (s[|s| - 1] as int - '0' as int)
  }

  /** Reads back an optional minus sign followed by digits. */
  function ParseInt(s: string): Option<int> {
    if |s| >= 2 && s[0] == '-' && AllDigits(s[1..]) then Some(0 - DigitsValue(s[1..]))
    else if |s| >= 1 && AllDigits(s) then Some(DigitsValue(s))
    else None
  }

  lemma {:induction false} NatTextValue(n: nat)
    ensures DigitsValue(NatText(n)) == n
  {
    if n >= 10 {
      var s := NatText(n);
      assert s[..|s| - 1] == NatText(n / 10);
      NatTextValue(n / 10);
    }
  }

  /** The decimal text of a score reads back as the same number. */
  lemma {:induction false} IntTextRoundTrip(n: int)
    ensures ParseInt(IntText(n)) == Some(n)
  {
    var m: nat := if n < 0 then -n else n;
    NatTextValue(m);
    SignedDigits(n, NatText(m));
  }

  /** A sign for negative numbers, then digits worth the magnitude, read back as the number. */
  lemma SignedDigits(n: int, d: string)
    requires |d| >= 1 && AllDigits(d) && DigitsValue(d) == (if n < 0 then -n else n)
    ensures ParseInt(if n < 0 then "-" + d else d) == Some(n)
  {
    if n < 0 {
      assert ("-" + d)[1..] == d;
    } else {
      assert d[0] != '-';
    }
  }

  /** Joins the parts with `sep` between consecutive ones. */
  function Join(parts: seq<string>, sep: string): string {
    if |parts| == 0 then ""
    else if |parts| == 1 then parts[0]
    else Join(parts[..|parts| - 1], sep) + sep + parts[|parts| - 1]
  }

  function PairTexts(pairs: seq<(string, string)>): seq<string> {
    if pairs == [] then [] else PairTexts(pairs[..|pairs| - 1]) + [pairs[|pairs| - 1].0 + "=" + pairs[|pairs| - 1].1]
  }

  /** `toString()` of a stored value (`AbstractCollection` and `AbstractMap` formats for the containers). */
  function Text(v: ArgValue): string {
    match v
    case Int(i) => IntText(i)
    case Bool(b) => if b then "true" else "false"
    case Str(s) => s
    case Strings(items) => "[" + Join(items, ", ") + "]"
    case Dict(pairs) => "{" + Join(PairTexts(pairs), ", ") + "}"
  }

  /** `String.valueOf(Object)`, as `StringBuilder.append(Object)` writes it. */
  function ValueOf(v: Option<ArgValue>): (r: string)
    ensures v.None? ==> r == "null"
    ensures v.Some? && v.value.Str? ==> r == v.value.s
  {
    if v.Some? then Text(v.value) else "null"
  }

  /**
   * The text of a value reads back: a number parses to itself, a string is
   * itself, a collection is bracketed and a map braced.
   */
  lemma TextReadsBack(v: ArgValue)
    ensures v.Int? ==> ParseInt(Text(v)) == Some(v.i)
    ensures v.Str? ==> Text(v) == v.s
    ensures v.Strings? ==> var r := Text(v); |r| >= 2 && r[0] == '[' && r[|r| - 1] == ']'
    ensures v.Dict? ==> var r := Text(v); |r| >= 2 && r[0] == '{' && r[|r| - 1] == '}'
  {
    if v.Int? {
      IntTextRoundTrip(v.i);
    }
  }

  function LowerAscii(c: char): char {
    if 'A' <= c <= 'Z' then (c as int + 32) as char else c
  }

  /** `e.toString().toLowerCase(Locale.ENGLISH).replace('_', '-')`, for ASCII enum names. */
  function EnumText(name: string): (r: string)
    ensures |r| == |name|
    ensures forall i :: 0 <= i < |r| ==> r[i] == (if name[i] == '_' then '-' else LowerAscii(name[i]))
    ensures forall i :: 0 <= i < |r| ==> r[i] != '_' && !('A' <= r[i] <= 'Z')
  {
    if name == [] then [] else [if name[0] == '_' then '-' else LowerAscii(name[0])] + EnumText(name[1..])
  }

  // ---------------------------------------------------------------------------
  // args and headers

  /** Index of the first entry whose key equals `key`: the entry `set` overwrites. */
  function FirstIndex(args: seq<Entry>, key: string): (r: Option<nat>)
    ensures r.Some? ==> r.value < |args| && args[r.value].key == key
    ensures r.Some? ==> forall j :: 0 <= j < r.value ==> args[j].key != key
    ensures r.None? ==> forall j :: 0 <= j < |args| ==> args[j].key != key
  {
    if args == [] then None
    else if args[0].key == key then Some(0)
    else match FirstIndex(args[1..], key)
      case None => None
      case Some(i) => Some(i + 1)
  }

  predicate DistinctNames(slots: seq<Slot>) {
    forall i, j :: 0 <= i < j < |slots| ==> slots[i].name != slots[j].name
  }

  function SlotIndex(slots: seq<Slot>, name: string): (r: Option<nat>)
    ensures r.Some? ==> r.value < |slots| && slots[r.value].name == name
    ensures r.None? ==> forall j :: 0 <= j < |slots| ==> slots[j].name != name
  {
    if slots == [] then None
    else if slots[0].name == name then Some(0)
    else match SlotIndex(slots[1..], name)
      case None => None
      case Some(i) => Some(i + 1)
  }

  /**
   * `LinkedHashMap.put`: an existing name keeps its position and takes the
   * new value; a new name goes last.  Names stay distinct.
   */
  function Put(slots: seq<Slot>, name: string, value: Option<string>): (r: seq<Slot>)
    requires DistinctNames(slots)
    ensures DistinctNames(r)
    ensures SlotIndex(slots, name).None? ==> r == slots + [Slot(name, value)]
    ensures SlotIndex(slots, name).Some? ==>
      var i := SlotIndex(slots, name).value;
      |r| == |slots| && r[i] == Slot(name, value) && forall j :: 0 <= j < |r| && j != i ==> r[j] == slots[j]
  {
    if slots == [] then [Slot(name, value)]
    else if slots[0].name == name then [Slot(name, value)] + slots[1..]
    else [slots[0]] + Put(slots[1..], name, value)
  }

  /** The headers whose value is not null, in insertion order, as request properties. */
  function Present(slots: seq<Slot>): (hs: seq<Header>)
    ensures |hs| <= |slots|
  {
    if slots == [] then []
    else
      var last := slots[|slots| - 1];
      Present(slots[..|slots| - 1]) + (if last.value.Some? then [Header(last.name, last.value.value)] else [])
  }

  /** The headers sent are exactly the slots that hold a value. */
  lemma {:induction false} PresentHeaders(slots: seq<Slot>)
    ensures forall h :: h in Present(slots) ==> Slot(h.name, Some(h.value)) in slots
    ensures forall k :: 0 <= k < |slots| && slots[k].value.Some? ==> Header(slots[k].name, slots[k].value.value) in Present(slots)
  {
    if slots != [] {
      var init := slots[..|slots| - 1];
      PresentHeaders(init);
      assert forall k :: 0 <= k < |init| ==> init[k] == slots[k];
    }
  }

  /** The header a slot holding a value is sent as. */
  function SentAs(s: Slot): Header
    requires s.value.Some?
  {
    Header(s.name, s.value.value)
  }

  /** Where slot `k` lands among the headers sent: after those of the slots before it. */
  function Rank(slots: seq<Slot>, k: nat): nat
    requires k <= |slots|
  {
    |Present(slots[..k])|
  }

  /**
   * The headers are sent in insertion order: a slot holding a value is sent
   * at its rank, and of two such slots the earlier one is sent first.
   */
  lemma {:induction false} PresentInOrder(slots: seq<Slot>)
    ensures forall k :: 0 <= k < |slots| && slots[k].value.Some? ==>
      Rank(slots, k) < |Present(slots)| && Present(slots)[Rank(slots, k)] == SentAs(slots[k])
    ensures forall i, j :: 0 <= i < j < |slots| && slots[i].value.Some? ==> Rank(slots, i) < Rank(slots, j)
  {
    if slots != [] {
      var n := |slots| - 1;
      var init := slots[..n];
      PresentInOrder(init);
      assert Present(slots) == Present(init) + (if slots[n].value.Some? then [SentAs(slots[n])] else []);
      assert slots[..n] == init;
      forall k | 0 <= k < n ensures Rank(slots, k) == Rank(init, k) {
        assert slots[..k] == init[..k];
      }
      assert Rank(slots, n) == |Present(init)|;
    }
  }

  // ---------------------------------------------------------------------------
  // Query string and form body

  predicate AllPresent(args: seq<Entry>) {
    forall j :: 0 <= j < |args| ==> args[j].value.Some?
  }

  /** `key=` followed by the form-encoded text of the value; the key itself is not encoded. */
  function QueryPiece(e: Entry): string
    requires e.value.Some?
  {
    e.key + "=" + UrlEncoding.Encode(Text(e.value.value))
  }

  function QueryPieces(args: seq<Entry>): (ps: seq<string>)
    requires AllPresent(args)
    ensures |ps| == |args|
    ensures forall j :: 0 <= j < |args| ==> ps[j] == QueryPiece(args[j])
  {
    if args == [] then [] else QueryPieces(args[..|args| - 1]) + [QueryPiece(args[|args| - 1])]
  }

  /**
   * The URL `_to` requests for a body-less method: the tail, `&` when the
   * tail already holds `?` and `?` otherwise, then the pieces joined by `&`.
   * A null value (left by `set(key, null)`) makes `toString` throw.  An empty
   * list leaves the tail as it is.
   */
  function QueryUrl(tail: string, args: seq<Entry>): (r: Result<string>)
    ensures r.Err? <==> args != [] && !AllPresent(args)
    ensures r.Err? ==> r.failure == NullPointer
    ensures r.Ok? ==> |tail| <= |r.value| && r.value[..|tail|] == tail
    ensures r.Ok? && args != [] ==> |r.value| > |tail| && r.value[|tail|] == (if '?' in tail then '&' else '?')
  {
    if args == [] then Ok(tail)
    else if !AllPresent(args) then Err(NullPointer)
    else Ok(tail + [if '?' in tail then '&' else '?'] + Join(QueryPieces(args), "&"))
  }

  /** `key=value` as `StringBuilder` appends them; a null value is written as `null`. */
  function FormPiece(e: Entry): string {
    e.key + "=" + ValueOf(e.value)
  }

  function FormPieces(args: seq<Entry>): (ps: seq<string>)
    ensures |ps| == |args|
    ensures forall j :: 0 <= j < |args| ==> ps[j] == FormPiece(args[j])
  {
    if args == [] then [] else FormPieces(args[..|args| - 1]) + [FormPiece(args[|args| - 1])]
  }

  /**
   * The form body: the pieces joined by `&`, values not encoded.  With no
   * parameters, removing the last character of the empty builder throws.
   */
  function FormBody(args: seq<Entry>): (r: Result<string>)
    ensures r.Err? <==> args == []
    ensures r.Err? ==> r.failure == IndexOutOfBounds(-1)
  {
    if args == [] then Err(IndexOutOfBounds(-1)) else Ok(Join(FormPieces(args), "&"))
  }

  /** Every part followed by `&`: what the builder holds before its last character is removed. */
  function Terminated(parts: seq<string>): string {
    if parts == [] then "" else Terminated(parts[..|parts| - 1]) + parts[|parts| - 1] + "&"
  }

  lemma {:induction false} TerminatedDropLast(parts: seq<string>)
    requires parts != []
    ensures |Terminated(parts)| >= 1
    ensures Terminated(parts)[..|Terminated(parts)| - 1] == Join(parts, "&")
  {
    var n := |parts|;
    if n > 1 {
      var init := parts[..n - 1];
      TerminatedDropLast(init);
      var t := Terminated(init);
      assert Terminated(parts) == t + parts[n - 1] + "&";
      assert Join(parts, "&") == Join(init, "&") + "&" + parts[n - 1];
      assert t == t[..|t| - 1] + "&";
    }
  }

  // ---------------------------------------------------------------------------
  // Reading the serialisations back

  function IndexOf(s: string, c: char): (r: Option<nat>)
    ensures r.Some? ==> r.value < |s| && s[r.value] == c && c !in s[..r.value]
    ensures r.None? ==> c !in s
  {
    if s == [] then None
    else if s[0] == c then Some(0)
    else match IndexOf(s[1..], c)
      case None => None
      case Some(i) => assert s[..i + 1] == [s[0]] + s[1..][..i]; Some(i + 1)
  }

  /** Splits at every `sep`, as a server splits `a&b&c`. */
  function Split(s: string, sep: char): (parts: seq<string>)
    ensures |parts| >= 1
    decreases |s|
  {
    match IndexOf(s, sep)
    case None => [s]
    case Some(i) => [s[..i]] + Split(s[i + 1..], sep)
  }

  /** Splits `key=value` at the first `=`. */
  function KeyValue(s: string): (string, string) {
    match IndexOf(s, '=')
    case None => (s, "")
    case Some(i) => (s[..i], s[i + 1..])
  }

  function Fields(s: string): seq<(string, string)> {
    var parts := Split(s, '&');
    seq(|parts|, i requires 0 <= i < |parts| => KeyValue(parts[i]))
  }

  lemma {:induction false} JoinCons(parts: seq<string>, sep: string)
    requires |parts| >= 2
    ensures Join(parts, sep) == parts[0] + sep + Join(parts[1..], sep)
  {
    var n := |parts|;
    if n > 2 {
      JoinCons(parts[..n - 1], sep);
      assert parts[..n - 1][1..] == parts[1..][..n - 2];
    }
  }

  lemma {:induction false} SplitJoin(parts: seq<string>, sep: char)
    requires |parts| >= 1
    requires forall j :: 0 <= j < |parts| ==> sep !in parts[j]
    ensures Split(Join(parts, [sep]), sep) == parts
  {
    if |parts| == 1 {
      assert IndexOf(parts[0], sep).None?;
    } else {
      JoinCons(parts, [sep]);
      var s := Join(parts, [sep]);
      var rest := Join(parts[1..], [sep]);
      assert s == parts[0] + [sep] + rest;
      var i := |parts[0]|;
      assert s[..i] == parts[0];
      IndexFound(parts[0], sep, rest);
      assert s[i + 1..] == rest;
      SplitJoin(parts[1..], sep);
      assert [parts[0]] + parts[1..] == parts;
    }
  }

  lemma {:induction false} IndexFound(head: string, sep: char, rest: string)
    requires sep !in head
    ensures IndexOf(head + [sep] + rest, sep) == Some(|head|)
  {
    var s := head + [sep] + rest;
    if head != [] {
      assert s[0] == head[0] && s[1..] == head[1..] + [sep] + rest;
      IndexFound(head[1..], sep, rest);
    }
  }

  lemma KeyValueOf(key: string, value: string)
    requires '=' !in key
    ensures KeyValue(key + "=" + value) == (key, value)
  {
    IndexFound(key, '=', value);
    var s := key + "=" + value;
    assert s[..|key|] == key;
    assert s[|key| + 1..] == value;
  }

  /**
   * A server that splits the query part at `&`, then each field at its
   * first `=`, and form-decodes the value, recovers every parameter in
   * order, provided no key holds `&` or `=` (keys are not encoded).
   */
  lemma QueryReadsBack(tail: string, args: seq<Entry>)
    requires args != [] && AllPresent(args)
    requires forall j :: 0 <= j < |args| ==> '&' !in args[j].key && '=' !in args[j].key
    ensures QueryUrl(tail, args).Ok?
    ensures var u := QueryUrl(tail, args).value;
      && |u| > |tail| && u[..|tail|] == tail
      && u[|tail|] == (if '?' in tail then '&' else '?')
      && |Fields(u[|tail| + 1..])| == |args|
      && forall j :: 0 <= j < |args| ==>
           Fields(u[|tail| + 1..])[j].0 == args[j].key
           && UrlEncoding.Decode(Fields(u[|tail| + 1..])[j].1) == Some(Text(args[j].value.value))
  {
    var u := QueryUrl(tail, args).value;
    var body := Join(QueryPieces(args), "&");
    assert u[..|tail|] == tail && u[|tail|] == (if '?' in tail then '&' else '?') && u[|tail| + 1..] == body by {
      assert u == tail + [if '?' in tail then '&' else '?'] + body;
    }
    QueryFields(args);
  }

  /** The query pieces, joined with `&`, split back into the keys and the encoded values. */
  lemma QueryFields(args: seq<Entry>)
    requires args != [] && AllPresent(args)
    requires forall j :: 0 <= j < |args| ==> '&' !in args[j].key && '=' !in args[j].key
    ensures var fs := Fields(Join(QueryPieces(args), "&"));
      && |fs| == |args|
      && forall j :: 0 <= j < |args| ==>
           fs[j].0 == args[j].key && UrlEncoding.Decode(fs[j].1) == Some(Text(args[j].value.value))
  {
    var ps := QueryPieces(args);
    forall j | 0 <= j < |ps| ensures '&' !in ps[j] {
      QueryPieceRead(args[j]);
    }
    SplitJoin(ps, '&');
    var fs := Fields(Join(ps, "&"));
    forall j | 0 <= j < |args|
      ensures fs[j].0 == args[j].key && UrlEncoding.Decode(fs[j].1) == Some(Text(args[j].value.value))
    {
      assert fs[j] == KeyValue(ps[j]);
      QueryPieceRead(args[j]);
    }
  }

  /** One `key=value` piece holds no `&` and splits back into the key and the encoded value. */
  lemma QueryPieceRead(e: Entry)
    requires e.value.Some? && '&' !in e.key && '=' !in e.key
    ensures '&' !in QueryPiece(e)
    ensures KeyValue(QueryPiece(e)).0 == e.key
    ensures UrlEncoding.Decode(KeyValue(QueryPiece(e)).1) == Some(Text(e.value.value))
  {
    var enc := UrlEncoding.Encode(Text(e.value.value));
    assert '&' !in enc;
    assert QueryPiece(e) == e.key + "=" + enc;
    KeyValueOf(e.key, enc);
    UrlEncoding.DecodeEncode(Text(e.value.value));
  }

  /**
   * The form body reads back only when no key holds `&` or `=` and no value
   * text holds `&`: values are written without encoding.
   */
  lemma FormReadsBack(args: seq<Entry>)
    requires args != []
    requires forall j :: 0 <= j < |args| ==> '&' !in args[j].key && '=' !in args[j].key && '&' !in ValueOf(args[j].value)
    ensures FormBody(args).Ok?
    ensures var fs := Fields(FormBody(args).value);
      |fs| == |args| && forall j :: 0 <= j < |args| ==> fs[j] == (args[j].key, ValueOf(args[j].value))
  {
    var ps := FormPieces(args);
    forall j | 0 <= j < |ps| ensures '&' !in ps[j] {
      assert ps[j] == args[j].key + "=" + ValueOf(args[j].value);
    }
    SplitJoin(ps, '&');
    forall j | 0 <= j < |args| ensures Fields(FormBody(args).value)[j] == (args[j].key, ValueOf(args[j].value)) {
      KeyValueOf(args[j].key, ValueOf(args[j].value));
    }
  }

  /** Without encoding, a value holding `&` reads as two parameters: two argument lists give one body. */
  lemma FormBodyAmbiguous()
    ensures var one := [Entry("name", Some(Str("a&score=1")))];
      var two := [Entry("name", Some(Str("a"))), Entry("score", Some(Str("1")))];
      one != two && FormBody(one) == FormBody(two)
  {
    var one := [Entry("name", Some(Str("a&score=1")))];
    var two := [Entry("name", Some(Str("a"))), Entry("score", Some(Str("1")))];
    assert FormPiece(one[0]) == "name=a&score=1";
    assert FormPieces(one) == ["name=a&score=1"];
    assert FormPiece(two[0]) == "name=a";
    assert FormPiece(two[1]) == "score=1";
    assert FormPieces(two) == ["name=a", "score=1"];
    assert Join(["name=a", "score=1"], "&") == "name=a&score=1" by {
      assert ["name=a", "score=1"][..1] == ["name=a"];
    }
  }
}
