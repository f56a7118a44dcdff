/**
  camera/CameraParameters.cpp: the parameter map with its flattened form, and the sizes kept in it.
  The map is Android's KeyedVector, sorted by key, where adding an existing key replaces its value;
  its code and that of String8 are not part of this repository or of this model.
 */
module CameraParameters {
  import opened Wrappers
  import opened Deadline
  import opened Numerals

  // ---------- The sorted map ----------

  datatype Entry = Entry(key: string, value: string)

  /** strcmp(a, b) < 0. */
  predicate Less(a: string, b: string) {
    b != [] && (a == [] || a[0] < b[0] || (a[0] == b[0] && Less(a[1..], b[1..])))
  }

  /** Up to `n` the strings agree, and there the first one ends or has the smaller character. */
  predicate LessAt(a: string, b: string, n: nat) {
    && n <= |a| && n < |b| && a[..n] == b[..n]
    && (n < |a| ==> a[n] < b[n])
  }

  lemma SameStart(a: string, b: string, n: nat)
    requires n > 0 && LessAt(a, b, n)
    ensures a[0] == b[0]
  {
    assert a[..n][0] == b[..n][0];
  }

  lemma {:induction false} LessIsAtFirstDifference(a: string, b: string)
    ensures Less(a, b) <==> exists n: nat :: LessAt(a, b, n)
  {
    forall n: nat | n > 0 && LessAt(a, b, n) ensures a[0] == b[0] {
      SameStart(a, b, n);
    }
    if a == [] || b == [] || a[0] != b[0] {
      assert b != [] && (a == [] || a[0] < b[0]) ==> LessAt(a, b, 0);
    } else {
      LessIsAtFirstDifference(a[1..], b[1..]);
      if n: nat :| LessAt(a[1..], b[1..], n) {
        assert a == [a[0]] + a[1..] && b == [a[0]] + b[1..];
        assert a[..n + 1] == [a[0]] + a[1..][..n] && b[..n + 1] == [a[0]] + b[1..][..n];
        assert LessAt(a, b, n + 1);
      }
      if n: nat :| LessAt(a, b, n) {
        assert n > 0;
        assert a[1..][..n - 1] == a[..n][1..] && b[1..][..n - 1] == b[..n][1..];
        assert LessAt(a[1..], b[1..], n - 1);
      }
    }
  }

  lemma {:induction false} LessIsTransitive(a: string, b: string, c: string)
    requires Less(a, b) && Less(b, c)
    ensures Less(a, c)
  {
    if a != [] && a[0] == b[0] && b[0] == c[0] {
      LessIsTransitive(a[1..], b[1..], c[1..]);
    }
  }

  lemma {:induction false} LessIsTotal(a: string, b: string)
    ensures Less(a, b) || a == b || Less(b, a)
    ensures !(Less(a, b) && Less(b, a)) && !Less(a, a)
  {
    if a != [] {
      LessIsTotal(a[1..], if b == [] then [] else b[1..]);
      if b != [] && a[0] == b[0] && a[1..] == b[1..] {
        assert a == [a[0]] + a[1..] && b == [b[0]] + b[1..];
      }
    }
  }

  ghost predicate Sorted(m: seq<Entry>) {
    forall i, j :: 0 <= i < j < |m| ==> Less(m[i].key, m[j].key)
  }

  /** Add, or replace the value of, a key. */
  function Put(m: seq<Entry>, key: string, value: string): seq<Entry> {
    if m == [] then [Entry(key, value)]
    else if m[0].key == key then [Entry(key, value)] + m[1..]
    else if Less(key, m[0].key) then [Entry(key, value)] + m
    else [m[0]] + Put(m[1..], key, value)
  }

  function RemoveKey(m: seq<Entry>, key: string): seq<Entry> {
    if m == [] then [] else if m[0].key == key then m[1..] else [m[0]] + RemoveKey(m[1..], key)
  }

  /** The value of a key, or the empty string. */
  function ValueFor(m: seq<Entry>, key: string): string {
    if m == [] then "" else if m[0].key == key then m[0].value else ValueFor(m[1..], key)
  }

  lemma {:induction false} PutMembers(m: seq<Entry>, key: string, value: string)
    ensures Entry(key, value) in Put(m, key, value)
    ensures forall e :: e in Put(m, key, value) ==> e == Entry(key, value) || e in m
  {
    if m != [] && m[0].key != key && !Less(key, m[0].key) {
      PutMembers(m[1..], key, value);
    }
  }

  lemma {:induction false} PutSorted(m: seq<Entry>, key: string, value: string)
    requires Sorted(m)
    ensures Sorted(Put(m, key, value))
  {
    if m != [] {
      LessIsTotal(key, m[0].key);
      if m[0].key == key {
      } else if Less(key, m[0].key) {
        forall j | 1 <= j < |m| ensures Less(key, m[j].key) {
          LessIsTransitive(key, m[0].key, m[j].key);
        }
      } else {
        PutSorted(m[1..], key, value);
        PutMembers(m[1..], key, value);
        var rest := Put(m[1..], key, value);
        forall j | 0 <= j < |rest| ensures Less(m[0].key, rest[j].key) {
          assert rest[j] in rest;
        }
      }
    }
  }

  lemma {:induction false} PutValue(m: seq<Entry>, key: string, value: string, k: string)
    requires Sorted(m)
    ensures ValueFor(Put(m, key, value), k) == if k == key then value else ValueFor(m, k)
  {
    if m != [] && m[0].key != key && !Less(key, m[0].key) {
      PutValue(m[1..], key, value, k);
    }
  }

  lemma {:induction false} PutAtEnd(m: seq<Entry>, e: Entry)
    requires Sorted(m + [e])
    ensures Put(m, e.key, e.value) == m + [e]
  {
    if m != [] {
      assert (m + [e])[0] == m[0] && (m + [e])[|m|] == e;
      LessIsTotal(m[0].key, e.key);
      assert m[1..] + [e] == (m + [e])[1..];
      PutAtEnd(m[1..], e);
    }
  }

  lemma {:induction false} RemoveKeySorted(m: seq<Entry>, key: string)
    requires Sorted(m)
    ensures Sorted(RemoveKey(m, key))
    ensures forall e :: e in RemoveKey(m, key) <==> e in m && e.key != key
  {
    if m != [] {
      assert forall e :: e in m <==> e == m[0] || e in m[1..];
      if m[0].key == key {
        KeysDiffer(m, key);
      } else {
        RemoveKeySorted(m[1..], key);
        var rest := RemoveKey(m[1..], key);
        forall j | 0 <= j < |rest| ensures Less(m[0].key, rest[j].key) {
          assert rest[j] in rest;
        }
      }
    }
  }

  /** In a sorted map the first key does not come again. */
  lemma KeysDiffer(m: seq<Entry>, key: string)
    requires Sorted(m) && m != [] && m[0].key == key
    ensures forall e :: e in m[1..] ==> e.key != key
  {
    forall j | 1 <= j < |m| ensures m[j].key != key {
      LessIsTotal(key, m[j].key);
    }
  }

  /** remove takes the value of its key and leaves every other. */
  lemma {:induction false} RemoveKeyValue(m: seq<Entry>, key: string, k: string)
    requires Sorted(m)
    ensures ValueFor(RemoveKey(m, key), k) == if k == key then "" else ValueFor(m, k)
  {
    if m != [] {
      if m[0].key == key {
        KeysDiffer(m, key);
        forall j | 0 <= j < |m[1..]| ensures m[1..][j].key != key {
          assert m[1..][j] in m[1..];
        }
        NoValue(m[1..], key);
      } else {
        RemoveKeyValue(m[1..], key, k);
      }
    }
  }

  /** After an add the map has the new entry, and the old ones of other keys. */
  lemma {:induction false} PutIsExact(m: seq<Entry>, key: string, value: string)
    requires Sorted(m)
    ensures forall e :: e in Put(m, key, value) <==> e == Entry(key, value) || (e in m && e.key != key)
  {
    if m != [] {
      assert forall e :: e in m <==> e == m[0] || e in m[1..];
      if m[0].key == key {
        KeysDiffer(m, key);
      } else if Less(key, m[0].key) {
        forall j | 0 <= j < |m| ensures m[j].key != key {
          if j > 0 { LessIsTransitive(key, m[0].key, m[j].key); }
          LessIsTotal(key, m[j].key);
        }
      } else {
        PutIsExact(m[1..], key, value);
      }
    }
  }

  lemma {:induction false} NoValue(m: seq<Entry>, key: string)
    requires forall j :: 0 <= j < |m| ==> m[j].key != key
    ensures ValueFor(m, key) == ""
  {
    if m != [] {
      NoValue(m[1..], key);
    }
  }

  // ---------- The flattened form ----------

  predicate Has(s: string, c: char) {
    c in s
  }

  /** What every reachable map is like: no '=' in a key, no ';' in a value. */
  ghost predicate Clean(m: seq<Entry>) {
    forall e :: e in m ==> !Has(e.key, '=') && !Has(e.value, ';')
  }

  ghost predicate MapOk(m: seq<Entry>) {
    Sorted(m) && Clean(m)
  }

  function Flatten(m: seq<Entry>): string {
    if m == [] then ""
    else m[0].key + "=" + m[0].value + (if |m| == 1 then "" else ";" + Flatten(m[1..]))
  }

  /** The tokens with `c` between them. */
  function JoinTokens(tokens: seq<string>, c: char): string
    requires tokens != []
  {
    if |tokens| == 1 then tokens[0] else tokens[0] + ([c] + JoinTokens(tokens[1..], c))
  }

  function Texts(entries: seq<Entry>): (texts: seq<string>)
    ensures |texts| == |entries|
    ensures forall i :: 0 <= i < |entries| ==> texts[i] == entries[i].key + "=" + entries[i].value
  {
    seq(|entries|, i requires 0 <= i < |entries| => entries[i].key + "=" + entries[i].value)
  }

  /** The flattened form is key=value for each entry, in the order of the keys, with ';' between them
      and nowhere else. */
  lemma {:induction false} FlattenText(m: seq<Entry>)
    ensures Flatten(m) == if m == [] then "" else JoinTokens(Texts(m), ';')
  {
    if |m| > 1 {
      FlattenText(m[1..]);
      assert Texts(m)[1..] == Texts(m[1..]);
    } else if m != [] {
      assert Flatten(m) == m[0].key + "=" + m[0].value;
    }
  }

  /** strchr: the position of the first `c` from `i` on, or the length. */
  function FindFrom(s: string, c: char, i: nat): (n: nat)
    requires i <= |s|
    ensures i <= n <= |s| && (n < |s| ==> s[n] == c)
    ensures forall j :: i <= j < n ==> s[j] != c
    decreases |s| - i
  {
    if i == |s| || s[i] == c then i else FindFrom(s, c, i + 1)
  }

  function Find(s: string, c: char): (n: nat)
    ensures n <= |s| && (n < |s| ==> s[n] == c)
    ensures forall j :: 0 <= j < n ==> s[j] != c
  {
    FindFrom(s, c, 0)
  }

  lemma FindSplit(a: string, c: char, b: string)
    requires !Has(a, c)
    ensures Find(a + [c] + b, c) == |a|
  {
    var s := a + [c] + b;
    assert s[|a|] == c;
    assert forall i :: 0 <= i < |a| ==> s[i] == a[i];
  }

  /** One entry taken off the front of a string: nothing, the last one, or one and what follows. */
  datatype Parsed = NoEntry | LastEntry(e: Entry) | FirstEntry(e: Entry, rest: string)

  function ParseEntry(s: string): (p: Parsed)
    ensures p.FirstEntry? ==> |p.rest| < |s|
    ensures !p.NoEntry? ==> !Has(p.e.key, '=') && !Has(p.e.value, ';')
  {
    var b := Find(s, '=');
    if b == |s| then NoEntry else ParseValue(s[..b], s[b + 1..])
  }

  /** The entry for `key` whose value starts `rest`. */
  function ParseValue(key: string, rest: string): (p: Parsed)
    ensures !p.NoEntry? && p.e.key == key && !Has(p.e.value, ';')
    ensures p.FirstEntry? ==> |p.rest| < |rest|
  {
    var e := Find(rest, ';');
    if e == |rest| then LastEntry(Entry(key, rest)) else FirstEntry(Entry(key, rest[..e]), rest[e + 1..])
  }

  lemma ParseLast(e: Entry)
    requires !Has(e.key, '=') && !Has(e.value, ';')
    ensures ParseEntry(e.key + "=" + e.value) == LastEntry(e)
  {
    var s := e.key + ['='] + e.value;
    FindSplit(e.key, '=', e.value);
    assert s[..|e.key|] == e.key && s[|e.key| + 1..] == e.value;
    assert Find(e.value, ';') == |e.value|;
  }

  lemma ParseFirst(e: Entry, tail: string)
    requires !Has(e.key, '=') && !Has(e.value, ';')
    ensures ParseEntry(e.key + "=" + e.value + (";" + tail)) == FirstEntry(e, tail)
  {
    var rest := e.value + [';'] + tail;
    var s := e.key + ['='] + rest;
    assert s == e.key + "=" + e.value + (";" + tail);
    FindSplit(e.key, '=', rest);
    assert s[..|e.key|] == e.key && s[|e.key| + 1..] == rest;
    FindSplit(e.value, ';', tail);
    assert rest[..|e.value|] == e.value && rest[|e.value| + 1..] == tail;
  }

  /** The loop of unflatten on the rest `s` of the string. */
  function UnflattenInto(m: seq<Entry>, s: string): seq<Entry>
    decreases |s|
  {
    match ParseEntry(s)
    case NoEntry => m
    case LastEntry(e) => Put(m, e.key, e.value)
    case FirstEntry(e, rest) => UnflattenInto(Put(m, e.key, e.value), rest)
  }

  function Unflatten(s: string): seq<Entry> {
    UnflattenInto([], s)
  }

  lemma PutIsOk(m: seq<Entry>, key: string, value: string)
    requires MapOk(m) && !Has(key, '=') && !Has(value, ';')
    ensures MapOk(Put(m, key, value))
  {
    PutSorted(m, key, value);
    PutMembers(m, key, value);
  }

  /** Whatever string is unflattened, the result is a clean map. */
  lemma {:induction false} UnflattenIsClean(m: seq<Entry>, s: string)
    requires MapOk(m)
    ensures MapOk(UnflattenInto(m, s))
    decreases |s|
  {
    match ParseEntry(s)
    case NoEntry =>
    case LastEntry(e) => PutIsOk(m, e.key, e.value);
    case FirstEntry(e, rest) =>
      PutIsOk(m, e.key, e.value);
      UnflattenIsClean(Put(m, e.key, e.value), rest);
  }

  lemma {:induction false} UnflattenTheRest(done: seq<Entry>, m: seq<Entry>)
    requires MapOk(done + m) && m != []
    ensures UnflattenInto(done, Flatten(m)) == done + m
    decreases |m|
  {
    var e := m[0];
    assert (done + m)[|done|] == e && e in done + m;
    assert (done + [e]) + m[1..] == done + m;
    assert forall i :: 0 <= i <= |done| ==> (done + [e])[i] == (done + m)[i];
    PutAtEnd(done, e);
    if |m| == 1 {
      assert m == [e];
      assert Flatten(m) == e.key + "=" + e.value;
      ParseLast(e);
    } else {
      ParseFirst(e, Flatten(m[1..]));
      UnflattenTheRest(done + [e], m[1..]);
    }
  }

  /** Every clean map, so every reachable one, is got back from its flattened form. */
  lemma FlattenRoundTrip(m: seq<Entry>)
    requires MapOk(m)
    ensures Unflatten(Flatten(m)) == m
  {
    if m != [] {
      assert [] + m == m;
      UnflattenTheRest([], m);
    }
  }

  /** Flattening what was unflattened, from any string, is a canonical form: it stands for the same
      map, and doing it again changes nothing. */
  lemma CanonicalForm(s: string)
    ensures Unflatten(Flatten(Unflatten(s))) == Unflatten(s)
    ensures Flatten(Unflatten(Flatten(Unflatten(s)))) == Flatten(Unflatten(s))
  {
    UnflattenIsClean([], s);
    FlattenRoundTrip(Unflatten(s));
  }

  // ---------- What unflatten makes of any string ----------

  /** The entries that unflatten reads, one after the other. */
  function Entries(s: string): seq<Entry>
    decreases |s|
  {
    match ParseEntry(s)
    case NoEntry => []
    case LastEntry(e) => [e]
    case FirstEntry(e, rest) => [e] + Entries(rest)
  }

  /** What is left over behind the last ';' that ends an entry. */
  function Unread(s: string): Option<string>
    decreases |s|
  {
    match ParseEntry(s)
    case NoEntry => Some(s)
    case LastEntry(_) => None
    case FirstEntry(_, rest) => Unread(rest)
  }

  lemma EntryText(s: string)
    ensures match ParseEntry(s)
            case NoEntry => !Has(s, '=')
            case LastEntry(e) => s == e.key + "=" + e.value
            case FirstEntry(e, rest) => s == e.key + "=" + e.value + (";" + rest)
  {
    hide FindFrom;
    var b := Find(s, '=');
    if b < |s| {
      var rest := s[b + 1..];
      assert s == s[..b] + "=" + rest;
      var e := Find(rest, ';');
      if e < |rest| {
        assert rest == rest[..e] + (";" + rest[e + 1..]);
        assert s == s[..b] + "=" + rest[..e] + (";" + rest[e + 1..]);
      }
    }
  }

  /** These entries, each up to the first ';' behind its first '=', and a rest without '=', if any, are
      the whole string: nothing else is skipped. */
  lemma {:induction false} EntriesJoin(s: string)
    ensures Clean(Entries(s)) && (Unread(s).Some? ==> !Has(Unread(s).value, '='))
    ensures var tokens := Texts(Entries(s)) + (if Unread(s).Some? then [Unread(s).value] else []);
            tokens != [] && JoinTokens(tokens, ';') == s
    decreases |s|
  {
    hide ParseEntry;
    EntryText(s);
    match ParseEntry(s)
    case NoEntry =>
    case LastEntry(e) =>
    case FirstEntry(e, rest) =>
      EntriesJoin(rest);
      var unread := if Unread(s).Some? then [Unread(s).value] else [];
      var tokens := Texts(Entries(s)) + unread;
      assert tokens[1..] == Texts(Entries(rest)) + unread;
  }

  predicate HasKey(entries: seq<Entry>, key: string) {
    exists e :: e in entries && e.key == key
  }

  /** `e` is one of the entries, and none behind it has its key. */
  predicate IsLast(entries: seq<Entry>, e: Entry) {
    entries != [] && (IsLast(entries[1..], e) || (entries[0] == e && !HasKey(entries[1..], e.key)))
  }

  lemma FirstOrLater(e0: Entry, entries: seq<Entry>, e: Entry)
    ensures HasKey([e0] + entries, e.key) <==> e0.key == e.key || HasKey(entries, e.key)
    ensures IsLast([e0] + entries, e) <==> IsLast(entries, e) || (e0 == e && !HasKey(entries, e.key))
  {
    assert ([e0] + entries)[1..] == entries;
    assert e0 in [e0] + entries;
    if HasKey(entries, e.key) {
      var e' :| e' in entries && e'.key == e.key;
      assert e' in [e0] + entries;
    }
  }

  lemma {:induction false} UnflattenIntoIsExact(m: seq<Entry>, s: string, e: Entry)
    requires MapOk(m)
    ensures e in UnflattenInto(m, s) <==> IsLast(Entries(s), e) || (e in m && !HasKey(Entries(s), e.key))
    decreases |s|
  {
    assert !HasKey([], e.key) && !IsLast([], e);
    hide ParseEntry, Put, IsLast, HasKey;
    match ParseEntry(s)
    case NoEntry =>
    case LastEntry(e0) =>
      PutIsExact(m, e0.key, e0.value);
      FirstOrLater(e0, [], e);
      assert [e0] + [] == [e0];
    case FirstEntry(e0, rest) =>
      PutIsExact(m, e0.key, e0.value);
      PutIsOk(m, e0.key, e0.value);
      FirstOrLater(e0, Entries(rest), e);
      UnflattenIntoIsExact(Put(m, e0.key, e0.value), rest, e);
  }

  /** unflatten keeps, of the entries with the same key, the last one, and nothing else; their order in
      the string does not matter, since the map is sorted. */
  lemma UnflattenKeepsLast(s: string, e: Entry)
    ensures MapOk(Unflatten(s))
    ensures e in Unflatten(s) <==> IsLast(Entries(s), e)
  {
    UnflattenIsClean([], s);
    UnflattenIntoIsExact([], s, e);
  }

  // ---------- Sizes ----------

  /** parse_pair: the two numbers around `delim` and the position behind the second. */
  function ParsePair(s: string, delim: char): (r: Option<((int, int), nat)>)
    ensures r.Some? ==> 1 <= r.value.1 <= |s| || (delim == '\0' && r.value.1 <= |s| + 1)
  {
    var (w, e) := StrToInt(s);
    if CharAt(s, e) != delim then None
    else if e == |s| then Some(((w, 0), e + 1))
    else
      var (h, n) := StrToInt(s[e + 1..]);
      Some(((w, h), e + 1 + n))
  }

  /** "%dx%d". */
  function PrintSize(size: (int, int)): string {
    PrintInt(size.0) + "x" + PrintInt(size.1)
  }

  predicate Int32(n: int) {
    -INT32_LIMIT <= n < INT32_LIMIT
  }

  predicate SizeOk(size: (int, int)) {
    Int32(size.0) && Int32(size.1)
  }

  lemma PairFromNumbers(s: string, w: int, e: nat, h: int, n: nat)
    requires StrToInt(s) == (w, e) && e < |s| && s[e] == 'x' && StrToInt(s[e + 1..]) == (h, n)
    ensures ParsePair(s, 'x') == Some(((w, h), e + 1 + n))
  {
    hide StrToInt;
  }

  lemma PairIsReadBack(size: (int, int), rest: string)
    requires SizeOk(size) && !IsDigit(CharAt(rest, 0))
    ensures ParsePair(PrintSize(size) + rest, 'x') == Some((size, |PrintSize(size)|))
  {
    hide StrToInt, PrintInt;
    var first, second := PrintInt(size.0), PrintInt(size.1);
    var tail := "x" + second + rest;
    var s := PrintSize(size) + rest;
    assert s == first + tail && s[|first|] == 'x' && s[|first| + 1..] == second + rest;
    PrintedIsReadBack(size.0, tail);
    PrintedIsReadBack(size.1, rest);
    PairFromNumbers(s, size.0, |first|, size.1, |second|);
  }

  /** parseSizesList from the start of `s`. */
  function ParseSizes(s: string): seq<(int, int)>
    decreases |s|
  {
    match ParsePair(s, 'x')
    case None => []
    case Some((size, e)) =>
      if e == |s| then [size]
      else if s[e] == ',' then [size] + ParseSizes(s[e + 1..])
      else []
  }

  /** Printed sizes with commas between them. */
  function JoinSizes(sizes: seq<(int, int)>): string {
    if sizes == [] then ""
    else PrintSize(sizes[0]) + (if |sizes| == 1 then "" else "," + JoinSizes(sizes[1..]))
  }

  /** One turn of parseSizesList. */
  lemma OneSize(size: (int, int), rest: string)
    requires SizeOk(size)
    ensures ParseSizes(PrintSize(size)) == [size]
    ensures ParseSizes(PrintSize(size) + ("," + rest)) == [size] + ParseSizes(rest)
  {
    hide PrintSize, ParsePair;
    var first := PrintSize(size);
    PairIsReadBack(size, "");
    assert first + "" == first;
    PairIsReadBack(size, "," + rest);
    assert (first + ("," + rest))[|first|] == ',';
    assert (first + ("," + rest))[|first| + 1..] == rest;
  }

  /** A list of printed sizes is read back, up to the first comma that no well-formed list follows:
      what is behind it is lost, what is before it is kept. */
  lemma {:induction false} SizesAreReadBack(sizes: seq<(int, int)>, rest: string)
    requires sizes != [] && forall i :: 0 <= i < |sizes| ==> SizeOk(sizes[i])
    ensures ParseSizes(JoinSizes(sizes)) == sizes
    ensures ParseSizes(JoinSizes(sizes) + ("," + rest)) == sizes + ParseSizes(rest)
  {
    hide ParseSizes, PrintSize;
    var first := PrintSize(sizes[0]);
    if |sizes| == 1 {
      OneSize(sizes[0], rest);
      assert sizes == [sizes[0]] && JoinSizes(sizes) == first + "" == first;
    } else {
      var more := JoinSizes(sizes[1..]);
      SizesAreReadBack(sizes[1..], rest);
      OneSize(sizes[0], more);
      OneSize(sizes[0], more + ("," + rest));
      assert first + ("," + more) + ("," + rest) == first + ("," + (more + ("," + rest)));
      assert sizes == [sizes[0]] + sizes[1..];
      assert sizes + ParseSizes(rest) == [sizes[0]] + (sizes[1..] + ParseSizes(rest));
    }
  }

  /** A size that is not the last of the string and has no comma behind it ends the list before it. */
  lemma JunkEndsTheList(size: (int, int), c: char, rest: string)
    requires SizeOk(size) && !IsDigit(c) && c != ','
    ensures ParseSizes(PrintSize(size) + [c] + rest) == []
  {
    PairIsReadBack(size, [c] + rest);
    assert PrintSize(size) + [c] + rest == PrintSize(size) + ([c] + rest);
  }

  // ---------- Lists of sizes, for every string ----------

  /** The tokens between the commas of `s`. */
  function Tokens(s: string): (tokens: seq<string>)
    ensures |tokens| >= 1 && forall i :: 0 <= i < |tokens| ==> !Has(tokens[i], ',')
    decreases |s|
  {
    var n := Find(s, ',');
    if n == |s| then [s] else [s[..n]] + Tokens(s[n + 1..])
  }

  lemma {:induction false} TokensJoin(s: string)
    ensures JoinTokens(Tokens(s), ',') == s
    decreases |s|
  {
    hide Find, Has;
    var n := Find(s, ',');
    if n < |s| {
      var rest := s[n + 1..];
      TokensJoin(rest);
      assert Tokens(s)[0] == s[..n] && Tokens(s)[1..] == Tokens(rest);
      assert s == s[..n] + ("," + rest);
    }
  }

  /** The pair that parse_pair reads from `token`, if it leaves nothing of it. */
  function WholePair(token: string): Option<(int, int)> {
    match ParsePair(token, 'x')
    case None => None
    case Some((size, e)) => if e == |token| then Some(size) else None
  }

  lemma PairStopsAtComma(token: string, rest: string)
    ensures ParsePair(token + ("," + rest), 'x') == ParsePair(token, 'x')
  {
    hide StrToInt;
    var tail := "," + rest;
    NumberEnds(token, tail);
    var (_, e) := StrToInt(token);
    if e < |token| {
      assert (token + tail)[e + 1..] == token[e + 1..] + tail;
      NumberEnds(token[e + 1..], tail);
    }
  }

  lemma FirstToken(token: string, rest: string)
    requires !Has(token, ',')
    ensures ParseSizes(token) == if WholePair(token).Some? then [WholePair(token).value] else []
    ensures ParseSizes(token + ("," + rest))
         == if WholePair(token).Some? then [WholePair(token).value] + ParseSizes(rest) else []
  {
    hide ParsePair;
    PairStopsAtComma(token, rest);
    var s := token + ("," + rest);
    assert s[|token|] == ',' && s[|token| + 1..] == rest;
  }

  /** For every string, parseSizesList yields the pairs of the longest prefix of its tokens that
      parse_pair consumes whole: it stops at the first token that is not one pair and nothing else. */
  lemma {:induction false} SizesOfTokens(s: string)
    ensures var tokens, sizes := Tokens(s), ParseSizes(s);
            && |sizes| <= |tokens|
            && (forall i :: 0 <= i < |sizes| ==> WholePair(tokens[i]) == Some(sizes[i]))
            && (|sizes| < |tokens| ==> WholePair(tokens[|sizes|]) == None)
    decreases |s|
  {
    hide ParseSizes, WholePair;
    var n := Find(s, ',');
    if n == |s| {
      FirstToken(s, "");
    } else {
      var rest := s[n + 1..];
      assert s == s[..n] + ("," + rest);
      FirstToken(s[..n], rest);
      SizesOfTokens(rest);
    }
  }

  /** The printed size fits the buffers of the setters and passes the checks of set(). */
  lemma PrintSizeIsClean(size: (int, int))
    requires SizeOk(size)
    ensures 0 < |PrintSize(size)| < 32
    ensures !Has(PrintSize(size), '=') && !Has(PrintSize(size), ';')
  {
    PrintedIsShort(size.0);
    PrintedIsShort(size.1);
  }

  // ---------- The object ----------

  class CameraParameters {
    var mMap: seq<Entry>

    ghost predicate Valid()
      reads this
    {
      MapOk(mMap)
    }

    constructor ()
      ensures Valid() && mMap == []
    {
      mMap := [];
    }

    method FlattenMap() returns (flattened: string)
      requires Valid()
      ensures flattened == Flatten(mMap) && Unflatten(flattened) == mMap
    {
      hide Unflatten, MapOk;
      flattened := "";
      var size := |mMap|;
      for i := 0 to size
        invariant flattened + Flatten(mMap[i..]) == Flatten(mMap)
      {
        var k, v := mMap[i].key, mMap[i].value;
        assert Flatten(mMap[i..]) == k + "=" + v + (if i == size - 1 then "" else ";" + Flatten(mMap[i + 1..]));
        flattened := flattened + k;
        flattened := flattened + "=";
        flattened := flattened + v;
        if i != size - 1 {
          flattened := flattened + ";";
        }
      }
      FlattenRoundTrip(mMap);
    }

    method UnflattenMap(params: string)
      modifies this
      ensures Valid() && mMap == Unflatten(params)
    {
      hide FindFrom, Put, ParseEntry;
      var a := 0;
      mMap := [];
      assert params[0..] == params;
      while true
        invariant 0 <= a <= |params| && MapOk(mMap)
        invariant UnflattenInto(mMap, params[a..]) == Unflatten(params)
        decreases |params| - a
      {
        NextEntry(params, a);
        var b := FindFrom(params, '=', a);
        if b == |params| {
          break;
        }
        var k := params[a..b];
        a := b + 1;
        b := FindFrom(params, ';', a);
        if b == |params| {
          var v := params[a..];
          PutIsOk(mMap, k, v);
          mMap := Put(mMap, k, v);
          break;
        }
        var v := params[a..b];
        PutIsOk(mMap, k, v);
        mMap := Put(mMap, k, v);
        a := b + 1;
      }
    }

    /** A NULL key or value, or one with '=' or ';' in it, is ignored. */
    method Set(key: Option<string>, value: Option<string>)
      requires Valid()
      modifies this
      ensures Valid()
      ensures mMap == if key.Some? && value.Some? && Settable(key.value) && Settable(value.value)
                      then Put(old(mMap), key.value, value.value) else old(mMap)
    {
      if key == None || value == None {
        return;
      }
      if '=' in key.value || ';' in key.value {
        return;
      }
      if '=' in value.value || ';' in value.value {
        return;
      }
      PutIsOk(mMap, key.value, value.value);
      mMap := Put(mMap, key.value, value.value);
    }

    method Remove(key: string)
      requires Valid()
      modifies this
      ensures Valid() && mMap == RemoveKey(old(mMap), key)
      ensures forall e :: e in mMap <==> e in old(mMap) && e.key != key
    {
      RemoveKeySorted(mMap, key);
      mMap := RemoveKey(mMap, key);
    }

    /** An absent key and an empty value are both reported as NULL. */
    method Get(key: string) returns (value: Option<string>)
      ensures value == if ValueFor(mMap, key) == "" then None else Some(ValueFor(mMap, key))
    {
      var v := ValueFor(mMap, key);
      value := if |v| == 0 then None else Some(v);
    }

    /** setPreviewSize, setVideoSize and setPictureSize, each for its own key. */
    method SetSize(key: string, width: int, height: int)
      requires Valid() && Int32(width) && Int32(height)
      modifies this
      ensures Valid()
      ensures mMap == if Settable(key) then Put(old(mMap), key, PrintSize((width, height))) else old(mMap)
      ensures Settable(key) ==> SizeFor(mMap, key) == (width, height)
    {
      PrintSizeIsClean((width, height));
      var str := PrintInt(width) + "x" + PrintInt(height);
      if Settable(key) { SizeIsReadBack(mMap, key, (width, height)); }
      Set(Some(key), Some(str));
    }

    /** getPreviewSize, getVideoSize, getPictureSize. */
    method GetSize(key: string) returns (width: int, height: int)
      ensures (width, height) == SizeFor(mMap, key)
    {
      width, height := -1, -1;
      var p := Get(key);
      if p == None {
        return;
      }
      var pair := ParsePair(p.value, 'x');
      if pair.Some? {
        width, height := pair.value.0.0, pair.value.0.1;
      }
    }

    /** getSupportedPreviewSizes and its like: parseSizesList on the value of a key. */
    method GetSupportedSizes(key: string, before: seq<(int, int)>) returns (sizes: seq<(int, int)>)
      ensures sizes == before + ParseSizes(ValueFor(mMap, key))
    {
      hide ParseSizes, ParsePair, ValueFor;
      NoSizes();
      var str := Get(key);
      sizes := before;
      if str == None {
        return;
      }
      var sizesStr := str.value;
      var start := 0;
      assert sizesStr[0..] == sizesStr;
      while true
        invariant 0 <= start <= |sizesStr|
        invariant sizes + ParseSizes(sizesStr[start..]) == before + ParseSizes(sizesStr)
        decreases |sizesStr| - start
      {
        NextSize(sizesStr, start);
        var pair := ParsePair(sizesStr[start..], 'x');
        if pair == None {
          return;
        }
        var end := start + pair.value.1;
        if CharAt(sizesStr, end) != ',' && end < |sizesStr| {
          return;
        }
        sizes := sizes + [pair.value.0];
        if end == |sizesStr| {
          return;
        }
        start := end + 1;
      }
    }
  }

  lemma NoSizes()
    ensures ParseSizes("") == []
  {
  }

  /** ParseSizes in terms of a cursor into the whole string. */
  lemma NextSize(s: string, start: nat)
    requires start <= |s|
    ensures ParseSizes(s[start..]) ==
            match ParsePair(s[start..], 'x')
            case None => []
            case Some((size, n)) =>
              if start + n == |s| then [size]
              else if s[start + n] == ',' then [size] + ParseSizes(s[start + n + 1..])
              else []
  {
    hide ParsePair;
    var pair := ParsePair(s[start..], 'x');
    if pair.Some? && start + pair.value.1 < |s| {
      assert s[start..][pair.value.1] == s[start + pair.value.1];
      assert s[start..][pair.value.1 + 1..] == s[start + pair.value.1 + 1..];
    }
  }

  predicate Settable(s: string): (ok: bool)
    ensures ok <==> forall c :: c in s ==> c != '=' && c != ';'
  {
    '=' !in s && ';' !in s
  }

  lemma FindInSuffix(s: string, c: char, a: nat)
    requires a <= |s|
    ensures FindFrom(s, c, a) == a + Find(s[a..], c)
  {
    var m := Find(s[a..], c);
    assert forall j :: a <= j < a + m ==> s[j] == s[a..][j - a];
    assert m < |s[a..]| ==> s[a + m] == s[a..][m];
  }

  /** What a search for `c` from `a` cuts out of the string, seen from its suffix at `a`. */
  lemma CutInSuffix(s: string, c: char, a: nat)
    requires a <= |s|
    ensures var (t, n) := (s[a..], FindFrom(s, c, a));
            && Find(t, c) == n - a && t[..n - a] == s[a..n]
            && (n < |s| ==> t[n - a + 1..] == s[n + 1..])
  {
    FindInSuffix(s, c, a);
  }

  lemma NextValue(key: string, s: string, a: nat)
    requires a <= |s|
    ensures var e := FindFrom(s, ';', a);
            ParseValue(key, s[a..]) ==
            if e == |s| then LastEntry(Entry(key, s[a..]))
            else FirstEntry(Entry(key, s[a..e]), s[e + 1..])
  {
    hide FindFrom, Find, Has;
    CutInSuffix(s, ';', a);
  }

  /** The entry that the cursors of unflatten enclose. */
  lemma NextEntry(s: string, a: nat)
    requires a <= |s|
    ensures var b := FindFrom(s, '=', a);
            ParseEntry(s[a..]) ==
            if b == |s| then NoEntry
            else
              var e := FindFrom(s, ';', b + 1);
              if e == |s| then LastEntry(Entry(s[a..b], s[b + 1..]))
              else FirstEntry(Entry(s[a..b], s[b + 1..e]), s[e + 1..])
  {
    hide FindFrom, Find, Has, ParseValue;
    CutInSuffix(s, '=', a);
    var b := FindFrom(s, '=', a);
    if b < |s| {
      NextValue(s[a..b], s, b + 1);
    }
  }

  /** The size that a getter finds in the map, (-1, -1) if there is none. */
  function SizeFor(m: seq<Entry>, key: string): (int, int) {
    var v := ValueFor(m, key);
    if v == "" then (-1, -1)
    else
      match ParsePair(v, 'x')
      case None => (-1, -1)
      case Some((size, _)) => size
  }

  /** No value, or one whose leading number is not followed by an 'x' at once, reads as (-1, -1). */
  lemma SizeIsMissing(m: seq<Entry>, key: string)
    requires var v := ValueFor(m, key); CharAt(v, StrToInt(v).1) != 'x'
    ensures SizeFor(m, key) == (-1, -1)
  {
  }

  /** A size that was set is read back, from the map itself and from the map that its flattened form
      stands for. */
  lemma SizeIsReadBack(m: seq<Entry>, key: string, size: (int, int))
    requires MapOk(m) && Settable(key) && SizeOk(size)
    ensures SizeFor(Put(m, key, PrintSize(size)), key) == size
    ensures SizeFor(Unflatten(Flatten(Put(m, key, PrintSize(size)))), key) == size
  {
    PrintSizeIsClean(size);
    PutIsOk(m, key, PrintSize(size));
    PutValue(m, key, PrintSize(size), key);
    PairIsReadBack(size, "");
    assert PrintSize(size) + "" == PrintSize(size);
    FlattenRoundTrip(Put(m, key, PrintSize(size)));
  }
}
