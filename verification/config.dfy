/**
 The comma-separated channel lists of the relay's configuration.

 `SOURCES` and `TARGETS` are read as one string each, split on `,` exactly as
 Python's `str.split(",")` does, every field is stripped of surrounding
 whitespace as `str.strip()` does, and blank fields are dropped; the order of
 the remaining fields is kept.
 */
module Config {

  /** Python's `str.isspace()`: the characters `str.strip()` with no
      argument removes, by code point. */
  predicate IsSpace(c: char)
  {
    var n := c as int;
    || 0x09 <= n <= 0x0D
    || 0x1C <= n <= 0x20
    || n == 0x85 || n == 0xA0 || n == 0x1680
    || 0x2000 <= n <= 0x200A
    || n == 0x2028 || n == 0x2029 || n == 0x202F || n == 0x205F || n == 0x3000
  }

  predicate AllSpace(s: string)
  {
    forall i :: 0 <= i < |s| ==> IsSpace(s[i])
  }

  /** A field the parser keeps: not empty, no surrounding whitespace, no comma. */
  predicate IsClean(e: string)
  {
    && e != []
    && !IsSpace(e[0])
    && !IsSpace(e[|e| - 1])
    && ',' !in e
  }

  /** Every name of the list is clean. */
  predicate AllClean(names: seq<string>)
  {
    forall i :: 0 <= i < |names| ==> IsClean(names[i])
  }

  /** `str.lstrip()`: drops the leading whitespace, and only that. */
  function TrimLeft(s: string): (r: string)
    ensures |r| <= |s|
    ensures forall k :: 0 <= k < |s| - |r| ==> IsSpace(s[k])
    ensures r == [] || !IsSpace(r[0])
    decreases |s|
  {
    if |s| > 0 && IsSpace(s[0]) then TrimLeft(s[1..]) else s
  }

  /** `str.rstrip()`: drops the trailing whitespace, and only that. */
  function TrimRight(s: string): (r: string)
    ensures |r| <= |s|
    ensures forall k :: 0 <= k < |r| ==> r[k] == s[k]
    ensures forall k :: |r| <= k < |s| ==> IsSpace(s[k])
    ensures r == [] || !IsSpace(r[|r| - 1])
    decreases |s|
  {
    if |s| > 0 && IsSpace(s[|s| - 1]) then TrimRight(s[..|s| - 1]) else s
  }

  /** `str.strip()`: what is left once the whitespace at both ends is cut
      off. `StripSlice` shows that it is the slice of the input in between. */
  function Strip(s: string): (r: string)
    ensures Lead(s) + |r| <= |s|
    ensures forall k :: 0 <= k < Lead(s) ==> IsSpace(s[k])
    ensures r != [] ==> !IsSpace(r[0]) && !IsSpace(r[|r| - 1])
  {
    TrimRight(TrimLeft(s))
  }

  /** The strip of `s` is the slice of `s` between its leading and its
      trailing whitespace, and everything cut off is whitespace. */
  lemma {:induction false} StripSlice(s: string)
    ensures Strip(s) == s[Lead(s)..Lead(s) + |Strip(s)|]
    ensures forall k :: Lead(s) + |Strip(s)| <= k < |s| ==> IsSpace(s[k])
    decreases |s|
  {
    if |s| > 0 && IsSpace(s[0]) {
      var t := s[1..];
      StripSlice(t);
      SliceOfTail(s, Lead(t), Lead(t) + |Strip(t)|);
      ShiftCut(s, Lead(t) + |Strip(t)|);
    } else {
      PrefixSlice(TrimRight(s), s);
    }
  }

  lemma SliceOfTail(s: string, i: nat, j: nat)
    requires |s| > 0 && i <= j <= |s| - 1
    ensures s[1..][i..j] == s[i + 1..j + 1]
  {
  }

  lemma ShiftCut(s: string, i: nat)
    requires |s| > 0 && i <= |s| - 1
    requires forall k :: i <= k < |s| - 1 ==> IsSpace(s[1..][k])
    ensures forall k :: i + 1 <= k < |s| ==> IsSpace(s[k])
  {
    forall k | i + 1 <= k < |s| ensures IsSpace(s[k]) {
      assert s[k] == s[1..][k - 1];
    }
  }

  lemma PrefixSlice(r: string, s: string)
    requires |r| <= |s| && forall k :: 0 <= k < |r| ==> r[k] == s[k]
    ensures r == s[0..|r|]
  {
  }

  /** A string whose `lstrip()` is all whitespace was all whitespace. */
  lemma {:induction false} TrimLeftAllSpace(s: string)
    ensures AllSpace(TrimLeft(s)) <==> AllSpace(s)
    decreases |s|
  {
    if |s| > 0 && IsSpace(s[0]) {
      TrimLeftAllSpace(s[1..]);
      AllSpaceCons(s[0], s[1..]);
      assert [s[0]] + s[1..] == s;
    }
  }

  /** `lstrip()` brings in no comma. */
  lemma {:induction false} TrimLeftCommaFree(s: string)
    requires ',' !in s
    ensures ',' !in TrimLeft(s)
    decreases |s|
  {
    if |s| > 0 && IsSpace(s[0]) {
      assert forall k :: 0 <= k < |s| - 1 ==> s[1..][k] == s[k + 1];
      TrimLeftCommaFree(s[1..]);
    }
  }

  /** The number of leading whitespace characters of `s`. */
  function Lead(s: string): (n: nat)
    ensures n <= |s|
  {
    |s| - |TrimLeft(s)|
  }

  /** Python's `s.split(",")`: always at least one field, and the fields are
      the maximal comma-free runs between the commas. */
  function Split(s: string): (r: seq<string>)
    ensures |r| >= 1
    decreases |s|
  {
    if s == [] then [[]]
    else
      var rest := Split(s[1..]);
      if s[0] == ',' then [[]] + rest
      else [[s[0]] + rest[0]] + rest[1..]
  }

  /** Python's `",".join(fields)`. */
  function Join(fields: seq<string>): string
    decreases |fields|
  {
    if |fields| == 0 then []
    else if |fields| == 1 then fields[0]
    else fields[0] + [','] + Join(fields[1..])
  }

  predicate CommaFree(fields: seq<string>)
  {
    forall i :: 0 <= i < |fields| ==> ',' !in fields[i]
  }

  /** What the parser keeps of one field: its strip, unless that is blank. */
  function Keep(field: string): (r: seq<string>)
    ensures r == [] <==> AllSpace(field)
  {
    StripEmptyIff(field);
    if Strip(field) != [] then [Strip(field)] else []
  }

  /** The list comprehension `[x.strip() for x in fields if x.strip()]`. */
  function Clean(fields: seq<string>): (r: seq<string>)
    decreases |fields|
  {
    if fields == [] then [] else Keep(fields[0]) + Clean(fields[1..])
  }

  /** The parsing of `SOURCES` and `TARGETS`: every element it keeps is clean. */
  function ParseList(s: string): (r: seq<string>)
    ensures AllClean(r)
  {
    SplitCommaFree(s);
    CleanIsClean(Split(s));
    Clean(Split(s))
  }

  // ---------------------------------------------------------------------
  // Properties of splitting and joining
  // ---------------------------------------------------------------------

  lemma {:induction false} SplitCommaFree(s: string)
    ensures CommaFree(Split(s))
    decreases |s|
  {
    if s != [] {
      SplitCommaFree(s[1..]);
      var rest := Split(s[1..]);
      if s[0] != ',' {
        assert ',' !in rest[0];
        var f := [s[0]] + rest[0];
        assert forall k :: 0 <= k < |f| ==> f[k] != ',' by {
          forall k | 0 <= k < |f| ensures f[k] != ',' {
            if k > 0 { assert f[k] == rest[0][k - 1]; }
          }
        }
      }
    }
  }

  /** Joining the fields of a split with commas gives back the input. */
  lemma {:induction false} JoinSplit(s: string)
    ensures Join(Split(s)) == s
    decreases |s|
  {
    if s != [] {
      JoinSplit(s[1..]);
      var rest := Split(s[1..]);
      if s[0] == ',' {
        assert Join([[]] + rest) == [','] + Join(rest);
      } else {
        var fs := [[s[0]] + rest[0]] + rest[1..];
        if |rest| == 1 {
          assert Join(fs) == [s[0]] + rest[0];
        } else {
          assert fs[1..] == rest[1..];
          assert Join(rest) == rest[0] + [','] + Join(rest[1..]);
        }
      }
    }
  }

  /** Splitting `cur + more`, where `cur` holds no comma, extends the first
      field of `more`'s split by `cur`. */
  lemma {:induction false} SplitPrefix(cur: string, more: string)
    requires ',' !in cur
    ensures Split(cur + more) == [cur + Split(more)[0]] + Split(more)[1..]
    decreases |cur|
  {
    if cur != [] {
      assert (cur + more)[1..] == cur[1..] + more;
      SplitPrefix(cur[1..], more);
      assert cur[0] != ',' by { assert cur[0] in cur; }
      assert [cur[0]] + (cur[1..] + Split(more)[0]) == cur + Split(more)[0];
    } else {
      assert cur + more == more;
      assert cur + Split(more)[0] == Split(more)[0];
      assert [cur + Split(more)[0]] + Split(more)[1..] == Split(more);
    }
  }

  /** Splitting a comma-separated rendering of comma-free fields gives the
      fields back. */
  lemma {:induction false} SplitJoin(fields: seq<string>)
    requires |fields| >= 1 && CommaFree(fields)
    ensures Split(Join(fields)) == fields
    decreases |fields|
  {
    if |fields| == 1 {
      SplitPrefix(fields[0], []);
      assert fields[0] + [] == fields[0];
    } else {
      var rest := fields[1..];
      assert CommaFree(rest) by {
        forall i | 0 <= i < |rest| ensures ',' !in rest[i] { assert rest[i] == fields[i + 1]; }
      }
      SplitJoin(rest);
      assert ',' !in fields[0];
      var more := [','] + Join(rest);
      assert fields[0] + [','] + Join(rest) == fields[0] + more;
      SplitPrefix(fields[0], more);
      assert more[1..] == Join(rest);
      assert Split(more) == [[]] + rest;
      assert fields[0] + [] == fields[0];
    }
  }

  // ---------------------------------------------------------------------
  // Properties of stripping and cleaning
  // ---------------------------------------------------------------------

  /** A string with no whitespace at either end is its own strip. */
  lemma StripClean(e: string)
    requires e == [] || (!IsSpace(e[0]) && !IsSpace(e[|e| - 1]))
    ensures Strip(e) == e
  {
    assert TrimLeft(e) == e;
    assert TrimRight(e) == e;
  }

  /** `str.strip()` is idempotent. */
  lemma StripIdempotent(s: string)
    ensures Strip(Strip(s)) == Strip(s)
  {
    StripClean(Strip(s));
  }

  /** A string strips to nothing exactly when it is all whitespace. */
  lemma StripEmptyIff(s: string)
    ensures Strip(s) == [] <==> AllSpace(s)
  {
    TrimLeftAllSpace(s);
  }

  /** Cleaning comma-free fields keeps only clean names. */
  lemma {:induction false} CleanIsClean(fields: seq<string>)
    requires CommaFree(fields)
    ensures AllClean(Clean(fields))
    decreases |fields|
  {
    if fields != [] {
      CommaFreeTail(fields);
      CleanIsClean(fields[1..]);
      KeepIsClean(fields[0]);
      AllCleanAppend(Keep(fields[0]), Clean(fields[1..]));
    }
  }

  lemma CommaFreeTail(fields: seq<string>)
    requires fields != [] && CommaFree(fields)
    ensures ',' !in fields[0] && CommaFree(fields[1..])
  {
    assert forall i :: 0 <= i < |fields| - 1 ==> fields[1..][i] == fields[i + 1];
  }

  /** What the parser keeps of a comma-free field is clean. */
  lemma KeepIsClean(f: string)
    requires ',' !in f
    ensures AllClean(Keep(f))
  {
    StripCommaFree(f);
  }

  lemma AllCleanAppend(a: seq<string>, b: seq<string>)
    requires AllClean(a) && AllClean(b)
    ensures AllClean(a + b)
  {
    assert forall i :: |a| <= i < |a + b| ==> (a + b)[i] == b[i - |a|];
  }

  /** Stripping never brings in a comma. */
  lemma StripCommaFree(f: string)
    requires ',' !in f
    ensures ',' !in Strip(f)
  {
    TrimLeftCommaFree(f);
    var l := TrimLeft(f);
    var e := TrimRight(l);
    forall k | 0 <= k < |e| ensures e[k] != ',' {
      assert l[k] in l;
    }
  }

  /** Every field of a clean list survives cleaning unchanged. */
  lemma {:induction false} CleanKeepsClean(fields: seq<string>)
    requires AllClean(fields)
    ensures Clean(fields) == fields
    decreases |fields|
  {
    if fields != [] {
      StripClean(fields[0]);
      CleanKeepsClean(fields[1..]);
    }
  }

  lemma {:induction false} CleanEmptyIff(fields: seq<string>)
    ensures Clean(fields) == [] <==> AllBlank(fields)
    decreases |fields|
  {
    if fields != [] {
      CleanEmptyIff(fields[1..]);
      assert Clean(fields) == Keep(fields[0]) + Clean(fields[1..]);
      AllBlankHead(fields);
    }
  }

  predicate CommaOrSpace(s: string)
  {
    forall i :: 0 <= i < |s| ==> s[i] == ',' || IsSpace(s[i])
  }

  /** Every field is whitespace only. */
  predicate AllBlank(fields: seq<string>)
  {
    forall i :: 0 <= i < |fields| ==> AllSpace(fields[i])
  }

  lemma AllSpaceCons(c: char, t: string)
    ensures AllSpace([c] + t) <==> IsSpace(c) && AllSpace(t)
  {
    var u := [c] + t;
    assert u[0] == c;
    assert forall k :: 0 <= k < |t| ==> u[k + 1] == t[k];
  }

  lemma CommaOrSpaceCons(c: char, t: string)
    ensures CommaOrSpace([c] + t) <==> (c == ',' || IsSpace(c)) && CommaOrSpace(t)
  {
    var u := [c] + t;
    assert u[0] == c;
    assert forall k :: 0 <= k < |t| ==> u[k + 1] == t[k];
  }

  lemma AllBlankCons(f: string, fs: seq<string>)
    ensures AllBlank([f] + fs) <==> AllSpace(f) && AllBlank(fs)
  {
    var u := [f] + fs;
    assert u[0] == f;
    assert forall k :: 0 <= k < |fs| ==> u[k + 1] == fs[k];
  }

  lemma AllBlankHead(fields: seq<string>)
    requires fields != []
    ensures AllBlank(fields) <==> AllSpace(fields[0]) && AllBlank(fields[1..])
  {
    assert forall k :: 0 <= k < |fields| - 1 ==> fields[1..][k] == fields[k + 1];
  }

  lemma {:induction false} SplitAllSpaceIff(s: string)
    ensures AllBlank(Split(s)) <==> CommaOrSpace(s)
    decreases |s|
  {
    if s != [] {
      SplitAllSpaceIff(s[1..]);
      var rest := Split(s[1..]);
      assert s == [s[0]] + s[1..];
      CommaOrSpaceCons(s[0], s[1..]);
      assert rest == [rest[0]] + rest[1..];
      AllBlankCons(rest[0], rest[1..]);
      if s[0] == ',' {
        AllBlankCons([], rest);
      } else {
        AllSpaceCons(s[0], rest[0]);
        AllBlankCons([s[0]] + rest[0], rest[1..]);
      }
    }
  }

  // ---------------------------------------------------------------------
  // Properties of the list parser
  // ---------------------------------------------------------------------

  /** The parsed list is exactly the stripped non-blank comma fields of the
      input, in their original order. */
  lemma {:induction false} ParseListFields(s: string)
    ensures ParseList(s) == Clean(Split(s))
    ensures Join(Split(s)) == s && CommaFree(Split(s))
  {
    JoinSplit(s);
    SplitCommaFree(s);
  }

  /** Rendering a list of clean names with commas and parsing it back gives
      the same list; in particular the empty string parses to `[]`. */
  lemma {:induction false} ParseJoin(names: seq<string>)
    requires AllClean(names)
    ensures ParseList(Join(names)) == names
  {
    if names == [] {
      assert Split([]) == [[]];
      StripClean([]);
      assert Clean([[]]) == [] + Clean([]);
    } else {
      CleanCommaFree(names);
      SplitJoin(names);
      CleanKeepsClean(names);
    }
  }

  lemma CleanCommaFree(names: seq<string>)
    requires AllClean(names)
    ensures CommaFree(names)
  {
  }

  /** The parsed list is empty exactly when the input holds nothing but commas
      and whitespace (the empty string among them). */
  lemma ParseListEmptyIff(s: string)
    ensures ParseList(s) == [] <==> CommaOrSpace(s)
  {
    CleanEmptyIff(Split(s));
    SplitAllSpaceIff(s);
  }

  /** The field `cur` ends at a comma: it is cleaned on its own and the rest
      of the input is split afresh. */
  lemma {:induction false} ScanComma(cur: string, more: string)
    requires ',' !in cur
    ensures Clean(Split(cur + ([','] + more))) == Keep(cur) + Clean(Split(more))
  {
    SplitPrefix(cur, [','] + more);
    assert ([','] + more)[1..] == more;
    assert cur + [] == cur;
    assert Split(cur + ([','] + more)) == [cur] + Split(more);
    assert ([cur] + Split(more))[1..] == Split(more);
  }

  /** The field `cur` ends with the input. */
  lemma {:induction false} ScanEnd(cur: string)
    requires ',' !in cur
    ensures Clean(Split(cur)) == Keep(cur)
  {
    SplitPrefix(cur, []);
    assert cur + [] == cur;
    assert Split(cur) == [cur];
  }

  lemma ConcatAssoc(a: seq<string>, b: seq<string>, c: seq<string>)
    ensures a + (b + c) == (a + b) + c
  {
  }

  /** The scan has emitted `names` for the fields already ended, holds the
      comma-free start `cur` of the current field, and has `rest` still to
      read: together they make up the parse of `s`. */
  ghost predicate Scanned(s: string, names: seq<string>, cur: string, rest: string)
  {
    ',' !in cur && names + Clean(Split(cur + rest)) == ParseList(s)
  }

  lemma ScanStart(s: string)
    ensures Scanned(s, [], [], s)
  {
    assert [] + s == s;
  }

  /** Reading a comma ends the current field. */
  lemma ScanAdvance(s: string, names: seq<string>, cur: string, rest: string)
    requires rest != [] && rest[0] == ','
    requires Scanned(s, names, cur, rest)
    ensures Scanned(s, names + Keep(cur), [], rest[1..])
  {
    var more := rest[1..];
    Uncons(rest);
    ScanComma(cur, more);
    EmptyPrefix(more);
    ConcatAssoc(names, Keep(cur), Clean(Split(more)));
  }

  /** Reading any other character extends the current field. */
  lemma ScanExtend(s: string, names: seq<string>, cur: string, rest: string)
    requires rest != [] && rest[0] != ','
    requires Scanned(s, names, cur, rest)
    ensures Scanned(s, names, cur + [rest[0]], rest[1..])
  {
    Uncons(rest);
    ShiftChar(cur, rest[0], rest[1..]);
    CommaFreeSnoc(cur, rest[0]);
  }

  lemma Uncons(rest: string)
    requires rest != []
    ensures rest == [rest[0]] + rest[1..]
  {
  }

  lemma EmptyPrefix(more: string)
    ensures [] + more == more
  {
  }

  lemma ShiftChar(cur: string, c: char, more: string)
    ensures cur + ([c] + more) == (cur + [c]) + more
  {
  }

  lemma CommaFreeSnoc(cur: string, c: char)
    requires ',' !in cur && c != ','
    ensures ',' !in cur + [c]
  {
    forall k | 0 <= k < |cur| + 1 ensures (cur + [c])[k] != ',' {
      if k < |cur| { assert (cur + [c])[k] == cur[k]; assert cur[k] in cur; }
    }
  }

  lemma ScanFinish(s: string, names: seq<string>, cur: string)
    requires Scanned(s, names, cur, [])
    ensures names + Keep(cur) == ParseList(s)
  {
    assert cur + [] == cur;
    ScanEnd(cur);
  }

  /** A single left-to-right pass over the input, collecting each field as
      its comma is read; it computes the same list as the split-strip-filter
      definition. */
  method ScanList(s: string) returns (names: seq<string>)
    ensures names == ParseList(s)
  {
    names := [];
    var cur := [];
    var rest := s;
    ScanStart(s);
    while rest != []
      invariant Scanned(s, names, cur, rest)
      decreases |rest|
    {
      names, cur, rest := ScanChar(s, names, cur, rest);
    }
    ScanFinish(s, names, cur);
    names := names + Keep(cur);
  }

  /** One character of the scan: a comma ends the current field. */
  method ScanChar(s: string, names: seq<string>, cur: string, rest: string)
    returns (names': seq<string>, cur': string, rest': string)
    requires rest != [] && Scanned(s, names, cur, rest)
    ensures |rest'| < |rest| && Scanned(s, names', cur', rest')
  {
    if rest[0] == ',' {
      ScanAdvance(s, names, cur, rest);
      names', cur', rest' := names + Keep(cur), [], rest[1..];
    } else {
      ScanExtend(s, names, cur, rest);
      names', cur', rest' := names, cur + [rest[0]], rest[1..];
    }
  }
}
