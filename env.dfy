/**
 * `ALLOWED_ZIPS`: the `ALLOWED_ZIPS` setting (default empty) split at
 * commas, each field trimmed, empty fields dropped.
 */
module Env {
  import opened Base

  /** The characters `String.prototype.trim` removes: white space and line terminators. */
  predicate IsJsSpace(c: char)
  {
    var n := c as int;
    || n == 0x09 || n == 0x0A || n == 0x0B || n == 0x0C || n == 0x0D || n == 0x20
    || n == 0xA0 || n == 0x1680 || 0x2000 <= n <= 0x200A || n == 0x2028 || n == 0x2029
    || n == 0x202F || n == 0x205F || n == 0x3000 || n == 0xFEFF
  }

  /** `split(',')`: the fields between commas; the empty text is one empty field. */
  function Split(s: string): (fields: seq<string>)
    ensures |fields| >= 1
    ensures forall k :: 0 <= k < |fields| ==> ',' !in fields[k]
  {
    if s == [] then [""]
    else
      var rest := Split(s[1..]);
      if s[0] == ',' then [""] + rest else [[s[0]] + rest[0]] + rest[1..]
  }

  /** The inverse of `Split`: fields joined with commas. */
  function Join(fields: seq<string>): string
    requires |fields| >= 1
  {
    if |fields| == 1 then fields[0] else fields[0] + "," + Join(fields[1..])
  }

  /** Splitting loses nothing: joining the fields back gives the text. */
  lemma {:induction false} SplitJoin(s: string)
    ensures Join(Split(s)) == s
  {
    if s != [] {
      var rest := Split(s[1..]);
      SplitJoin(s[1..]);
      if s[0] == ',' {
        assert Split(s)[1..] == rest;
      } else if |rest| == 1 {
      } else {
        assert Split(s)[1..] == rest[1..];
      }
    }
  }

  /** Splitting the join of comma-free fields gives the fields back. */
  lemma {:induction false} JoinSplit(fields: seq<string>)
    requires |fields| >= 1 && forall k :: 0 <= k < |fields| ==> ',' !in fields[k]
    ensures Split(Join(fields)) == fields
  {
    if |fields| == 1 {
      NoCommaIsOneField(fields[0]);
    } else {
      JoinSplit(fields[1..]);
      SplitAfterField(fields[0], Join(fields[1..]));
    }
  }

  lemma {:induction false} NoCommaIsOneField(s: string)
    requires ',' !in s
    ensures Split(s) == [s]
  {
    if s != [] {
      NoCommaIsOneField(s[1..]);
      assert [s[0]] + s[1..] == s;
    }
  }

  lemma {:induction false} SplitAfterField(f: string, t: string)
    requires ',' !in f
    ensures Split(f + "," + t) == [f] + Split(t)
  {
    if f == [] {
      assert ("" + "," + t)[1..] == t;
    } else {
      assert (f + "," + t)[1..] == f[1..] + "," + t;
      SplitAfterField(f[1..], t);
      assert [f[0]] + f[1..] == f;
    }
  }

  function TrimStart(s: string): (r: string)
    ensures |r| <= |s| && (',' !in s ==> ',' !in r)
    ensures r != [] ==> r[|r| - 1] == s[|s| - 1]
    ensures r == [] || !IsJsSpace(r[0])
  {
    if s != [] && IsJsSpace(s[0]) then TrimStart(s[1..]) else s
  }

  function TrimEnd(s: string): (r: string)
    ensures |r| <= |s| && (',' !in s ==> ',' !in r)
    ensures r != [] ==> r[0] == s[0]
    ensures r == [] || !IsJsSpace(r[|r| - 1])
  {
    if s != [] && IsJsSpace(s[|s| - 1]) then TrimEnd(s[..|s| - 1]) else s
  }

  /** The number of white-space characters `s` starts with. */
  function Lead(s: string): (i: nat)
    ensures i <= |s| && (i < |s| ==> !IsJsSpace(s[i]))
    ensures forall k :: 0 <= k < i ==> IsJsSpace(s[k])
  {
    if s != [] && IsJsSpace(s[0]) then
      var i := Lead(s[1..]);
      assert forall k :: 1 <= k < i + 1 ==> s[k] == s[1..][k - 1];
      1 + i
    else 0
  }

  /** The number of white-space characters `s` ends with. */
  function Trail(s: string): (n: nat)
    ensures n <= |s| && (n < |s| ==> !IsJsSpace(s[|s| - 1 - n]))
    ensures forall k :: |s| - n <= k < |s| ==> IsJsSpace(s[k])
  {
    if s != [] && IsJsSpace(s[|s| - 1]) then
      var n := Trail(s[..|s| - 1]);
      assert forall k :: 0 <= k < |s| - 1 ==> s[k] == s[..|s| - 1][k];
      1 + n
    else 0
  }

  lemma {:induction false} TrimStartIsSuffix(s: string)
    ensures TrimStart(s) == s[Lead(s)..]
  {
    if s != [] && IsJsSpace(s[0]) {
      TrimStartIsSuffix(s[1..]);
      assert s[1..][Lead(s[1..])..] == s[1 + Lead(s[1..])..];
    }
  }

  lemma {:induction false} TrimEndIsPrefix(s: string)
    ensures TrimEnd(s) == s[..|s| - Trail(s)]
  {
    if s != [] && IsJsSpace(s[|s| - 1]) {
      var init := s[..|s| - 1];
      TrimEndIsPrefix(init);
      assert init[..|init| - Trail(init)] == s[..|s| - Trail(s)];
    }
  }

  /** `trim()`: white space removed from both ends, nothing else. */
  function Trim(s: string): (r: string)
    ensures r == [] || (!IsJsSpace(r[0]) && !IsJsSpace(r[|r| - 1]))
    ensures ',' !in s ==> ',' !in r
  {
    var t := TrimStart(s);
    var r := TrimEnd(t);
    assert r != [] ==> r[0] == t[0];
    r
  }

  /** Where the kept slice of `trim()` ends: before the trailing white space of what `trimStart` left. */
  function TrimmedEnd(s: string): (j: nat)
    ensures Lead(s) <= j <= |s|
  {
    |s| - Trail(s[Lead(s)..])
  }

  lemma {:induction false} TrimKeeps(s: string)
    ensures Trim(s) == s[Lead(s)..TrimmedEnd(s)]
  {
    var t := s[Lead(s)..];
    TrimStartIsSuffix(s);
    TrimEndIsPrefix(t);
    assert t[..|t| - Trail(t)] == s[Lead(s)..TrimmedEnd(s)];
  }

  lemma {:induction false} TrimDropsOnlySpace(s: string, k: nat)
    requires k < Lead(s) || TrimmedEnd(s) <= k < |s|
    ensures IsJsSpace(s[k])
  {
    if k >= TrimmedEnd(s) {
      var t := s[Lead(s)..];
      assert s[k] == t[k - Lead(s)];
    }
  }

  /**
   * What `trim()` keeps: a slice `s[i..j]` of the input with only white
   * space outside it, beginning and ending with a character that is not
   * white space, so exactly the leading and trailing white space is gone.
   */
  lemma {:induction false} TrimIsSlice(s: string)
    ensures Trim(s) == [] || (!IsJsSpace(Trim(s)[0]) && !IsJsSpace(Trim(s)[|Trim(s)| - 1]))
    ensures exists i, j :: 0 <= i <= j <= |s| && Trim(s) == s[i..j] &&
                           forall k :: 0 <= k < i || j <= k < |s| ==> IsJsSpace(s[k])
  {
    var i, j := Lead(s), TrimmedEnd(s);
    TrimKeeps(s);
    forall k | 0 <= k < i || j <= k < |s| ensures IsJsSpace(s[k]) {
      TrimDropsOnlySpace(s, k);
    }
  }

  lemma {:induction false} TrimIdempotent(s: string)
    ensures Trim(Trim(s)) == Trim(s)
  {
    var r := Trim(s);
    assert TrimStart(r) == r;
    assert TrimEnd(r) == r;
  }

  /** What every allowed zip is: non-empty, trimmed and free of commas. */
  ghost predicate CleanZip(z: string)
  {
    z != "" && Trim(z) == z && ',' !in z
  }

  /** `map(s => s.trim()).filter(Boolean)`. */
  function TrimmedNonEmpty(fields: seq<string>): seq<string>
  {
    if fields == [] then []
    else
      var rest := TrimmedNonEmpty(fields[1..]);
      if Trim(fields[0]) == "" then rest else [Trim(fields[0])] + rest
  }

  /** Trimming comma-free fields and dropping the empty ones leaves only clean zips. */
  lemma {:induction false} TrimmedNonEmptyClean(fields: seq<string>)
    requires forall f :: f in fields ==> ',' !in f
    ensures forall z :: z in TrimmedNonEmpty(fields) ==> CleanZip(z)
  {
    if fields != [] {
      assert forall f :: f in fields[1..] ==> f in fields;
      TrimmedNonEmptyClean(fields[1..]);
      TrimIdempotent(fields[0]);
      assert fields[0] in fields;
    }
  }

  /** One field in front: its trimmed form, when non-empty, comes first. */
  lemma TrimmedNonEmptyCons(x: string, rest: seq<string>)
    ensures TrimmedNonEmpty([x] + rest) == TrimmedNonEmpty([x]) + TrimmedNonEmpty(rest)
  {
    assert ([x] + rest)[0] == x && ([x] + rest)[1..] == rest;
    assert [x][1..] == [];
  }

  lemma {:induction false} TrimmedNonEmptyAppend(a: seq<string>, b: seq<string>)
    ensures TrimmedNonEmpty(a + b) == TrimmedNonEmpty(a) + TrimmedNonEmpty(b)
  {
    if a != [] {
      var x, tail := a[0], a[1..];
      var h := TrimmedNonEmpty([x]);
      calc {
        TrimmedNonEmpty(a + b);
        { assert a + b == [x] + (tail + b); }
        TrimmedNonEmpty([x] + (tail + b));
        { TrimmedNonEmptyCons(x, tail + b); }
        h + TrimmedNonEmpty(tail + b);
        { TrimmedNonEmptyAppend(tail, b); }
        h + (TrimmedNonEmpty(tail) + TrimmedNonEmpty(b));
        (h + TrimmedNonEmpty(tail)) + TrimmedNonEmpty(b);
        { TrimmedNonEmptyCons(x, tail); assert a == [x] + tail; }
        TrimmedNonEmpty(a) + TrimmedNonEmpty(b);
      }
    } else {
      assert a + b == b;
    }
  }

  /** The allowed zips from the setting; a missing setting is the empty text. */
  function AllowedZips(setting: Option<string>): (zips: seq<string>)
    ensures forall z :: z in zips ==> z != "" && Trim(z) == z && ',' !in z
    ensures setting.Some? && ',' !in setting.value ==>
              zips == if Trim(setting.value) == "" then [] else [Trim(setting.value)]
  {
    var fields := Split(if setting.Some? then setting.value else "");
    assert forall f :: f in fields ==> ',' !in f;
    TrimmedNonEmptyClean(fields);
    OneFieldZips(setting);
    TrimmedNonEmpty(fields)
  }

  lemma {:induction false} OneFieldZips(setting: Option<string>)
    ensures setting.Some? && ',' !in setting.value ==>
              TrimmedNonEmpty(Split(setting.value)) == if Trim(setting.value) == "" then [] else [Trim(setting.value)]
  {
    if setting.Some? && ',' !in setting.value {
      NoCommaIsOneField(setting.value);
      assert [setting.value][1..] == [];
    }
  }

  /** A zip is kept iff it is the non-empty trimmed text of some field. */
  lemma {:induction false} TrimmedNonEmptyHas(fields: seq<string>, z: string)
    ensures z in TrimmedNonEmpty(fields) <==> z != "" && exists f :: f in fields && Trim(f) == z
  {
    if fields != [] {
      TrimmedNonEmptyHas(fields[1..], z);
      assert forall f :: f in fields <==> f == fields[0] || f in fields[1..];
    }
  }

  /** Every non-blank field of the setting contributes its trimmed text, and nothing else is allowed. */
  lemma {:induction false} AllowedZipsFromFields(setting: string, z: string)
    ensures z in AllowedZips(Some(setting)) <==> z != "" && exists f :: f in Split(setting) && Trim(f) == z
  {
    TrimmedNonEmptyHas(Split(setting), z);
  }

  /** No setting and the empty setting both allow no zip. */
  lemma EmptySettingAllowsNothing()
    ensures AllowedZips(None) == [] && AllowedZips(Some("")) == []
  {
    assert Split("") == [""];
    assert Trim("") == "";
    assert [""][1..] == [];
  }

  /** Fields keep their order: the zips of "a,b" are the zips of "a" followed by those of "b". */
  lemma {:induction false} FieldOrderKept(a: string, b: string)
    requires ',' !in a
    ensures AllowedZips(Some(a + "," + b)) == AllowedZips(Some(a)) + AllowedZips(Some(b))
  {
    SplitAfterField(a, b);
    NoCommaIsOneField(a);
    TrimmedNonEmptyAppend([a], Split(b));
  }

  lemma TrimPadded()
    ensures Trim(" 10001 ") == "10001"
  {
    assert " 10001 "[1..] == "10001 ";
    assert TrimStart("10001 ") == "10001 ";
    assert "10001 "[..5] == "10001";
    assert TrimEnd("10001") == "10001";
  }

  lemma SplitSample()
    ensures Split(" 10001 ,,10002") == [" 10001 ", "", "10002"]
  {
    var fields := [" 10001 ", "", "10002"];
    assert fields[1..] == ["", "10002"] && fields[1..][1..] == ["10002"];
    assert Join(fields) == " 10001 " + "," + ("" + "," + "10002");
    assert " 10001 " + "," + ("" + "," + "10002") == " 10001 ,,10002";
    assert ',' !in fields[0] && ',' !in fields[1] && ',' !in fields[2];
    JoinSplit(fields);
  }

  lemma TrimBare()
    ensures Trim("10002") == "10002" && Trim("") == ""
  {
    assert TrimStart("10002") == "10002";
    assert TrimEnd("10002") == "10002";
  }

  lemma TrimmedTail()
    ensures TrimmedNonEmpty(["", "10002"]) == ["10002"]
  {
    TrimBare();
    assert ["", "10002"][1..] == ["10002"];
    assert ["10002"][1..] == [];
  }

  /** A field padded with white space yields the bare zip, and an empty field nothing. */
  lemma PaddedFieldIsTrimmed()
    ensures AllowedZips(Some(" 10001 ,,10002")) == ["10001", "10002"]
  {
    var fields := [" 10001 ", "", "10002"];
    SplitSample();
    TrimPadded();
    TrimmedTail();
    assert fields[1..] == ["", "10002"];
    assert TrimmedNonEmpty(fields) == ["10001"] + TrimmedNonEmpty(["", "10002"]);
  }
}
