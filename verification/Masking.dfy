/**
 Response filtering: the comma-separated field lists of the request headers, and the JSON, CBOR
 and header filters they drive. `V` stands for the values, which filtering never looks into.
 */
module Masking {
  import opened Wrappers

  /******* Field lists *******/

  /** Unicode White_Space, which `trim` strips. */
  predicate IsSpace(c: char) {
    var n := c as int;
    (9 <= n <= 13) || n in {0x20, 0x85, 0xA0, 0x1680, 0x2028, 0x2029, 0x202F, 0x205F, 0x3000} || (0x2000 <= n <= 0x200A)
  }

  function Trim(s: string): string {
    if s == [] then []
    else if IsSpace(s[0]) then Trim(s[1..])
    else if IsSpace(s[|s| - 1]) then Trim(s[..|s| - 1])
    else s
  }

  /** Cut at every comma. */
  function Pieces(s: string): (r: seq<string>)
    ensures r != []
  {
    if s == [] then [""]
    else
      var rest := Pieces(s[1..]);
      if s[0] == ',' then [""] + rest else [[s[0]] + rest[0]] + rest[1..]
  }

  function TrimmedNonempty(pieces: seq<string>): seq<string> {
    if pieces == [] then []
    else (if Trim(pieces[0]) == [] then [] else [Trim(pieces[0])]) + TrimmedNonempty(pieces[1..])
  }

  function SplitFiltering(s: string): seq<string> {
    TrimmedNonempty(Pieces(s))
  }

  function Join(fields: seq<string>): string {
    if fields == [] then ""
    else if |fields| == 1 then fields[0]
    else fields[0] + "," + Join(fields[1..])
  }

  /** A field as it comes out of a list: nonempty, without commas, without space at either end. */
  predicate IsField(f: string) {
    f != [] && ',' !in f && !IsSpace(f[0]) && !IsSpace(f[|f| - 1])
  }

  lemma {:induction false} TrimIsTrimmed(s: string)
    ensures Trim(s) == [] || (!IsSpace(Trim(s)[0]) && !IsSpace(Trim(s)[|Trim(s)| - 1]))
    ensures ',' !in s ==> ',' !in Trim(s)
    decreases |s|
  {
    if s != [] {
      if IsSpace(s[0]) {
        TrimIsTrimmed(s[1..]);
      } else if IsSpace(s[|s| - 1]) {
        TrimIsTrimmed(s[..|s| - 1]);
      }
    }
  }

  lemma {:induction false} PiecesHaveNoComma(s: string)
    ensures forall i | 0 <= i < |Pieces(s)| :: ',' !in Pieces(s)[i]
  {
    if s != [] {
      PiecesHaveNoComma(s[1..]);
    }
  }

  lemma {:induction false} TrimmedAreFields(pieces: seq<string>)
    requires forall i | 0 <= i < |pieces| :: ',' !in pieces[i]
    ensures forall i | 0 <= i < |TrimmedNonempty(pieces)| :: IsField(TrimmedNonempty(pieces)[i])
  {
    if pieces != [] {
      TrimIsTrimmed(pieces[0]);
      TrimmedAreFields(pieces[1..]);
    }
  }

  lemma {:induction false} PiecesOfField(f: string, rest: string)
    requires ',' !in f
    ensures Pieces(f) == [f]
    ensures Pieces(f + "," + rest) == [f] + Pieces(rest)
  {
    if f == [] {
      assert f + "," + rest == "," + rest;
      assert ("," + rest)[1..] == rest;
    } else {
      PiecesOfField(f[1..], rest);
      assert (f + "," + rest)[1..] == f[1..] + "," + rest;
      assert [f[0]] + f[1..] == f;
    }
  }

  lemma {:induction false} SplitOfJoin(fields: seq<string>)
    requires forall i | 0 <= i < |fields| :: IsField(fields[i])
    ensures SplitFiltering(Join(fields)) == fields
  {
    if fields == [] {
      assert Pieces("") == [""];
      assert TrimmedNonempty([""]) == [] + TrimmedNonempty([""][1..]);
    } else if |fields| == 1 {
      PiecesOfField(fields[0], "");
      assert [fields[0]][1..] == [] && fields == [fields[0]];
      assert Trim(fields[0]) == fields[0];
      assert TrimmedNonempty([fields[0]]) == [fields[0]] + TrimmedNonempty([]);
    } else {
      SplitOfJoin(fields[1..]);
      PiecesOfField(fields[0], Join(fields[1..]));
      assert ([fields[0]] + Pieces(Join(fields[1..])))[1..] == Pieces(Join(fields[1..]));
    }
  }

  /** Splitting a list, joining the fields with commas and splitting again gives the same fields. */
  lemma SplitIsStable(s: string)
    ensures SplitFiltering(Join(SplitFiltering(s))) == SplitFiltering(s)
  {
    PiecesHaveNoComma(s);
    TrimmedAreFields(Pieces(s));
    SplitOfJoin(SplitFiltering(s));
  }

  lemma {:induction false} PiecesAtComma(x: string, y: string)
    ensures Pieces(x + "," + y) == Pieces(x) + Pieces(y)
  {
    var s := x + "," + y;
    if x == [] {
      assert s == "," + y && s[1..] == y;
    } else {
      PiecesAtComma(x[1..], y);
      assert s[0] == x[0] && s[1..] == x[1..] + "," + y;
      FirstPieceGrows(x[0], Pieces(x[1..]), Pieces(y));
    }
  }

  lemma FirstPieceGrows(c: char, p: seq<string>, q: seq<string>)
    requires p != []
    ensures [[c] + (p + q)[0]] + (p + q)[1..] == ([[c] + p[0]] + p[1..]) + q
    ensures [""] + (p + q) == ([""] + p) + q
  {
    assert (p + q)[1..] == p[1..] + q;
  }

  lemma {:induction false} TrimmedAppend(a: seq<string>, b: seq<string>)
    ensures TrimmedNonempty(a + b) == TrimmedNonempty(a) + TrimmedNonempty(b)
  {
    if a == [] {
      assert a + b == b;
    } else {
      TrimmedAppend(a[1..], b);
      assert (a + b)[1..] == a[1..] + b && (a + b)[0] == a[0];
      var head := if Trim(a[0]) == [] then [] else [Trim(a[0])];
      Associate(head, TrimmedNonempty(a[1..]), TrimmedNonempty(b));
    }
  }

  lemma Associate(a: seq<string>, b: seq<string>, c: seq<string>)
    ensures a + (b + c) == (a + b) + c
  {
  }

  /** A comma separates, wherever it stands. */
  lemma SplitAtComma(x: string, y: string)
    ensures SplitFiltering(x + "," + y) == SplitFiltering(x) + SplitFiltering(y)
  {
    PiecesAtComma(x, y);
    TrimmedAppend(Pieces(x), Pieces(y));
  }

  /** The twenty-five characters that Unicode calls white space. */
  const WHITE_SPACE: seq<int> := [
    9, 10, 11, 12, 13, 32, 133, 160, 5760,
    8192, 8193, 8194, 8195, 8196, 8197, 8198, 8199, 8200, 8201, 8202,
    8232, 8233, 8239, 8287, 12288]

  lemma SpaceIsWhiteSpace(c: char)
    ensures IsSpace(c) <==> c as int in WHITE_SPACE
  {
  }

  predicate IsPadding(pad: string) {
    forall c | c in pad :: c as int in WHITE_SPACE
  }

  lemma {:induction false} TrimLeft(left: string, s: string)
    requires IsPadding(left)
    ensures Trim(left + s) == Trim(s)
  {
    if left == [] {
      assert left + s == s;
    } else {
      assert left[0] in left;
      SpaceIsWhiteSpace(left[0]);
      assert (left + s)[1..] == left[1..] + s;
      assert forall c | c in left[1..] :: c in left;
      TrimLeft(left[1..], s);
    }
  }

  lemma {:induction false} TrimRight(f: string, right: string)
    requires IsPadding(right) && IsField(f)
    ensures Trim(f + right) == f
    decreases |right|
  {
    if right == [] {
      assert f + right == f;
    } else {
      var n := |right| - 1;
      assert right[n] in right;
      SpaceIsWhiteSpace(right[n]);
      assert (f + right)[..|f + right| - 1] == f + right[..n];
      assert forall c | c in right[..n] :: c in right;
      TrimRight(f, right[..n]);
    }
  }

  /** White space around a field does not matter, and alone it is no field. */
  lemma PaddedFieldIsFound(left: string, f: string, right: string)
    requires IsPadding(left) && IsPadding(right) && (f == [] || IsField(f))
    ensures SplitFiltering(left + f + right) == if f == [] then [] else [f]
  {
    var s := left + f + right;
    assert ',' !in left && ',' !in right;
    PiecesOfField(s, "");
    assert s == left + (f + right);
    TrimLeft(left, f + right);
    if f == [] {
      TrimLeft(right, "");
      assert f + right == right + "";
    } else {
      TrimRight(f, right);
    }
    assert TrimmedNonempty([s]) == (if Trim(s) == [] then [] else [Trim(s)]) + TrimmedNonempty([s][1..]);
  }

  /******* JSON and CBOR *******/

  datatype Json<V> = Object(fields: map<string, V>) | OtherJson

  datatype CborKey = Text(text: string) | OtherKey(n: int)

  datatype Cbor<V> = Map(list: seq<(CborKey, V)>) | OtherCbor

  function Fields<V>(obj: Json<V>): map<string, V> {
    if obj.Object? then obj.fields else map[]
  }

  /** The JSON filter looks each wanted field up in turn. */
  method MaskJson<V>(obj: Json<V>, filtering: seq<string>) returns (r: map<string, V>)
    ensures r == JsonMask(Fields(obj), filtering)
  {
    r := map[];
    for i := 0 to |filtering|
      invariant r == JsonMask(Fields(obj), filtering[..i])
    {
      assert filtering[..i + 1] == filtering[..i] + [filtering[i]];
      if obj.Object? && filtering[i] in obj.fields {
        r := r[filtering[i] := obj.fields[filtering[i]]];
      }
    }
    assert filtering[..|filtering|] == filtering;
  }

  function JsonMask<V>(fields: map<string, V>, filtering: seq<string>): map<string, V> {
    map k | k in fields && k in filtering :: fields[k]
  }

  predicate Keeps<V>(e: (CborKey, V), filtering: seq<string>) {
    e.0.Text? && e.0.text in filtering
  }

  /** The CBOR filter keeps the wanted entries of the list, in order. */
  function CborRetain<V>(list: seq<(CborKey, V)>, filtering: seq<string>): seq<(CborKey, V)> {
    if list == [] then []
    else if Keeps(list[0], filtering) then [list[0]] + CborRetain(list[1..], filtering)
    else CborRetain(list[1..], filtering)
  }

  function CborMask<V>(obj: Cbor<V>, filtering: seq<string>): seq<(CborKey, V)> {
    if obj.Map? then CborRetain(obj.list, filtering) else []
  }

  predicate SameFields(f: seq<string>, g: seq<string>) {
    (forall k | k in f :: k in g) && (forall k | k in g :: k in f)
  }

  /** Masking twice is masking once, and only which fields are named matters. */
  lemma {:induction false} CborMaskIsProjection<V>(list: seq<(CborKey, V)>, f: seq<string>, g: seq<string>)
    ensures CborRetain(CborRetain(list, f), f) == CborRetain(list, f)
    ensures SameFields(f, g) ==> CborRetain(list, f) == CborRetain(list, g)
  {
    if list != [] {
      CborMaskIsProjection(list[1..], f, g);
      if Keeps(list[0], f) {
        assert CborRetain(list, f)[1..] == CborRetain(list[1..], f);
        assert CborRetain(list, f)[0] == list[0];
      }
    }
  }

  lemma JsonMaskIsProjection<V>(fields: map<string, V>, f: seq<string>, g: seq<string>)
    ensures JsonMask(JsonMask(fields, f), f) == JsonMask(fields, f)
    ensures JsonMask(fields, f).Keys == fields.Keys * (set k | k in f)
    ensures SameFields(f, g) ==> JsonMask(fields, f) == JsonMask(fields, g)
  {
  }

  predicate DistinctKeys<V>(list: seq<(CborKey, V)>) {
    forall i, j | 0 <= i < j < |list| :: list[i].0 != list[j].0
  }

  /** The text-keyed entries of a list as a map. */
  function AsMap<V>(list: seq<(CborKey, V)>): map<string, V> {
    if list == [] then map[]
    else if list[0].0.Text? then AsMap(list[1..])[list[0].0.text := list[0].1]
    else AsMap(list[1..])
  }

  lemma {:induction false} AsMapKeys<V>(list: seq<(CborKey, V)>, k: string)
    ensures k in AsMap(list) <==> exists i | 0 <= i < |list| :: list[i].0 == Text(k)
  {
    if list != [] {
      AsMapKeys(list[1..], k);
      if list[0].0 != Text(k) && exists i | 0 <= i < |list| :: list[i].0 == Text(k) {
        var i :| 0 <= i < |list| && list[i].0 == Text(k);
        assert list[1..][i - 1] == list[i];
      }
    }
  }

  lemma {:induction false} RetainIsMask<V>(list: seq<(CborKey, V)>, filtering: seq<string>)
    requires DistinctKeys(list)
    ensures AsMap(CborRetain(list, filtering)) == JsonMask(AsMap(list), filtering)
  {
    if list != [] {
      var tail := list[1..];
      assert DistinctKeys(tail);
      RetainIsMask(tail, filtering);
      var head := list[0];
      if head.0.Text? {
        AsMapKeys(tail, head.0.text);
        if head.0.text in filtering {
          var kept := CborRetain(list, filtering);
          assert kept[1..] == CborRetain(tail, filtering);
          assert AsMap(kept) == AsMap(kept[1..])[head.0.text := head.1];
        } else {
          assert forall i | 0 <= i < |tail| :: tail[i].0 != head.0;
          assert AsMap(list) == AsMap(tail)[head.0.text := head.1];
        }
      }
    }
  }

  /**
   Given the same fields both masks keep the same: the text-keyed entries of a CBOR map without
   repeated keys are those of a JSON object, and anything else has no fields in either.
   */
  lemma CborAndJsonAgree<V>(cbor: Cbor<V>, json: Json<V>, filtering: seq<string>)
    requires cbor.Map? ==> DistinctKeys(cbor.list)
    requires Fields(json) == if cbor.Map? then AsMap(cbor.list) else map[]
    ensures AsMap(CborMask(cbor, filtering)) == JsonMask(Fields(json), filtering)
  {
    if cbor.Map? {
      RetainIsMask(cbor.list, filtering);
    }
  }

  /******* Headers *******/

  /** A header; None is a value that is not visible ASCII. Names arrive in lower case. */
  datatype RawHeader = RawHeader(name: string, value: Option<string>)

  predicate Wanted(h: RawHeader, filtering: seq<string>) {
    && h.value.Some?
    && h.name !in ["content-type", "content-length", "transfer-encoding"]
    && (filtering == [] || h.name in filtering)
  }

  /** The positions of the first `n` headers that are kept, in order. */
  ghost predicate KeptAt(headers: seq<RawHeader>, n: nat, filtering: seq<string>, at: seq<nat>)
    requires n <= |headers|
  {
    && (forall i | 0 <= i < |at| :: at[i] < n && Wanted(headers[at[i]], filtering))
    && (forall i, j | 0 <= i < j < |at| :: at[i] < at[j])
    && (forall i | 0 <= i < n && Wanted(headers[i], filtering) :: i in at)
  }

  /** `kept` is `kept0` followed by the headers at these positions. */
  ghost predicate Copied(headers: seq<RawHeader>, at: seq<nat>, kept0: seq<(string, string)>,
                         kept: seq<(string, string)>)
  {
    && |kept| == |kept0| + |at| && kept[..|kept0|] == kept0
    && forall i | 0 <= i < |at| ::
         && at[i] < |headers| && headers[at[i]].value.Some?
         && kept[|kept0| + i] == (headers[at[i]].name, headers[at[i]].value.value)
  }

  predicate IsMime(h: RawHeader) {
    h.name == "content-type" && h.value.Some?
  }

  /** The last mime type among the headers, or `mime0`. */
  function LastMime(headers: seq<RawHeader>, mime0: string): string {
    if headers == [] then mime0
    else if IsMime(headers[|headers| - 1]) then headers[|headers| - 1].value.value
    else LastMime(headers[..|headers| - 1], mime0)
  }

  lemma {:induction false} LastMimeMeaning(headers: seq<RawHeader>, mime0: string, n: nat)
    requires n <= |headers| && forall m | n < m < |headers| :: !IsMime(headers[m])
    ensures n < |headers| && IsMime(headers[n]) ==> LastMime(headers, mime0) == headers[n].value.value
    ensures (forall m | 0 <= m < |headers| :: !IsMime(headers[m])) ==> LastMime(headers, mime0) == mime0
  {
    if headers != [] && !IsMime(headers[|headers| - 1]) {
      LastMimeMeaning(headers[..|headers| - 1], mime0, if n == |headers| then n - 1 else n);
    }
  }

  lemma Skip(headers: seq<RawHeader>, i: nat, filtering: seq<string>, at: seq<nat>)
    requires i < |headers| && KeptAt(headers, i, filtering, at) && !Wanted(headers[i], filtering)
    ensures KeptAt(headers, i + 1, filtering, at)
  {
  }

  lemma Keep(headers: seq<RawHeader>, i: nat, filtering: seq<string>, at: seq<nat>,
             kept0: seq<(string, string)>, kept: seq<(string, string)>)
    requires i < |headers| && KeptAt(headers, i, filtering, at) && Copied(headers, at, kept0, kept)
    requires Wanted(headers[i], filtering)
    ensures KeptAt(headers, i + 1, filtering, at + [i])
    ensures Copied(headers, at + [i], kept0, kept + [(headers[i].name, headers[i].value.value)])
  {
    assert i in at + [i];
    forall n | 0 <= n < i && Wanted(headers[n], filtering) ensures n in at + [i] {
      assert n in at;
    }
  }

  function Lower(s: string): (r: string)
    ensures |r| == |s|
  {
    seq(|s|, i requires 0 <= i < |s| => if 'A' <= s[i] <= 'Z' then (s[i] as int + 32) as char else s[i])
  }

  function Upper(s: string): (r: string)
    ensures |r| == |s|
  {
    seq(|s|, i requires 0 <= i < |s| => if 'a' <= s[i] <= 'z' then (s[i] as int - 32) as char else s[i])
  }

  function WantedNames(filtering: string): seq<string> {
    SplitFiltering(Lower(filtering))
  }

  /** The list of wanted headers is read without regard to case ... */
  lemma ReadWithoutCase(filtering: string)
    ensures WantedNames(Upper(filtering)) == WantedNames(filtering)
  {
    assert Lower(Upper(filtering)) == Lower(filtering);
  }

  /** ... so a header, whose name comes in lower case, is kept when its name is asked for in any case. */
  lemma HeaderIsFound(name: string, value: string, left: string, right: string)
    requires IsField(name) && (forall c | c in name :: !('A' <= c <= 'Z')) && IsPadding(left) && IsPadding(right)
    requires name !in ["content-type", "content-length", "transfer-encoding"]
    ensures WantedNames(left + Upper(name) + right) == [name]
    ensures Wanted(RawHeader(name, Some(value)), WantedNames(left + Upper(name) + right))
  {
    PaddedFieldIsFound(left, name, right);
    NoCapitals(name);
    PaddingHasNoCapitals(left);
    PaddingHasNoCapitals(right);
    assert Lower(Upper(name)) == Lower(name);
    LowerAppend(left, Upper(name));
    LowerAppend(left + Upper(name), right);
  }

  lemma NoCapitals(s: string)
    requires forall c | c in s :: !('A' <= c <= 'Z')
    ensures Lower(s) == s
  {
    assert forall i | 0 <= i < |s| :: s[i] in s;
  }

  lemma PaddingHasNoCapitals(pad: string)
    requires IsPadding(pad)
    ensures Lower(pad) == pad
  {
    NoCapitals(pad);
  }

  lemma LowerAppend(a: string, b: string)
    ensures Lower(a + b) == Lower(a) + Lower(b)
  {
  }

  /**
   Copy the wanted headers after those already there: an in-order subsequence of the response's
   headers, holding every wanted one. `content-type` becomes the mime type instead, the last one if
   there are several.
   */
  method WithHeaders(kept0: seq<(string, string)>, mime0: string, headers: seq<RawHeader>, wanted: string)
    returns (kept: seq<(string, string)>, mime: string, ghost at: seq<nat>)
    ensures KeptAt(headers, |headers|, WantedNames(wanted), at)
    ensures Copied(headers, at, kept0, kept)
    ensures mime == LastMime(headers, mime0)
  {
    var filtering := WantedNames(wanted);
    kept, mime, at := kept0, mime0, [];
    for i := 0 to |headers|
      invariant KeptAt(headers, i, filtering, at) && Copied(headers, at, kept0, kept)
      invariant mime == LastMime(headers[..i], mime0)
    {
      var h := headers[i];
      assert headers[..i + 1][..i] == headers[..i];
      if h.value.Some? {
        if h.name == "content-type" {
          mime := h.value.value;
        } else if h.name == "content-length" || h.name == "transfer-encoding" {
        } else if filtering == [] || h.name in filtering {
          Keep(headers, i, filtering, at, kept0, kept);
          kept := kept + [(h.name, h.value.value)];
          at := at + [i];
          continue;
        }
      }
      Skip(headers, i, filtering, at);
    }
    assert headers[..|headers|] == headers;
  }
}
