/** The score records: a text file of `name,score` lines, appended to
    after each game, emptied on request, and read back as the two-field
    records in descending score order. The file is modelled by its lines
    and whether it exists; a write that fails with an `IOException` only
    logs it, so it is modelled as a step that changes nothing. */
module Scores {
  import opened JavaNum

  /** A record: the fields of one kept line, `[name, score]`. */
  type Record = seq<string>

  // ---------------------------------------------------------------
  // Integer text: `Integer.toString` and `Integer.parseInt`
  // ---------------------------------------------------------------

  predicate IsDigit(c: char) { '0' <= c <= '9' }

  function DigitValue(c: char): nat
    requires IsDigit(c)
  {
    (c as int - '0' as int) as nat
  }

  function DigitChar(d: nat): char
    requires d < 10
  {
    ('0' as int + d) as char
  }

  /** The decimal digits of n, most significant first, with no leading
      zero. */
  function Digits(n: nat): (s: string)
    ensures |s| >= 1 && AllDigits(s)
    decreases n
  {
    if n < 10 then [DigitChar(n)] else Digits(n / 10) + [DigitChar(n % 10)]
  }

  /** The value of a digit string read most significant first. */
  function DigitsValue(s: string): nat
    requires AllDigits(s)
    decreases |s|
  {
    if |s| == 0 then 0 else DigitsValue(s[..|s| - 1]) * 10 + DigitValue(s[|s| - 1])
  }

  /** `Integer.toString(n)`. */
  function IntToString(n: int32): string
  {
    if n < 0 then "-" + Digits(-(n as int)) else Digits(n as int)
  }

  predicate AllDigits(s: string)
  {
    forall i :: 0 <= i < |s| ==> IsDigit(s[i])
  }

  /** s without its leading sign, if it has one. */
  function Unsigned(s: string): string
  {
    if |s| > 0 && (s[0] == '-' || s[0] == '+') then s[1..] else s
  }

  /** The form `Integer.parseInt` accepts: an optional sign, then at least
      one digit. */
  predicate IsDecimal(s: string)
  {
    |Unsigned(s)| >= 1 && AllDigits(Unsigned(s))
  }

  /** `Integer.parseInt(s)` for an accepted string (0 otherwise: the
      source would throw, and the callers here rule that out). */
  function ParseInt(s: string): int
  {
    if !IsDecimal(s) then 0
    else if s[0] == '-' then -(DigitsValue(Unsigned(s)) as int)
    else DigitsValue(Unsigned(s))
  }

  /** A score field `parseInt` turns into an int without throwing. */
  predicate ScoreFieldOk(s: string)
  {
    IsDecimal(s) && -0x8000_0000 <= ParseInt(s) < 0x8000_0000
  }

  lemma {:induction false} DigitsRoundTrip(n: nat)
    ensures DigitsValue(Digits(n)) == n
    decreases n
  {
    if n >= 10 {
      DigitsRoundTrip(n / 10);
      var s := Digits(n / 10) + [DigitChar(n % 10)];
      assert s[..|s| - 1] == Digits(n / 10);
    }
  }

  /** `parseInt(toString(n)) == n`, and `toString` always gives a string
      `parseInt` accepts. */
  lemma IntToStringRoundTrip(n: int32)
    ensures ScoreFieldOk(IntToString(n)) && ParseInt(IntToString(n)) == n as int
  {
    var s := IntToString(n);
    if n < 0 {
      DigitsRoundTrip(-(n as int));
      assert s[1..] == Digits(-(n as int));
    } else {
      DigitsRoundTrip(n as int);
      assert s[0] != '-' && s[0] != '+';
    }
  }

  // ---------------------------------------------------------------
  // `String.split(",")`
  // ---------------------------------------------------------------

  /** Every field of s between commas, empty ones included: the split
      before any trailing empties are removed. */
  function Fields(s: string): (fs: seq<string>)
    ensures |fs| >= 1
    decreases |s|
  {
    if |s| == 0 then [""]
    else
      var rest := Fields(s[1..]);
      if s[0] == ',' then [""] + rest else [[s[0]] + rest[0]] + rest[1..]
  }

  function DropTrailingEmpty(fs: seq<string>): seq<string>
    decreases |fs|
  {
    if |fs| > 0 && fs[|fs| - 1] == "" then DropTrailingEmpty(fs[..|fs| - 1]) else fs
  }

  /** Java's `s.split(",")`: without a comma the whole string, even an
      empty one; otherwise the fields with trailing empty ones dropped
      (so "a,5," splits into two fields, and ",," into none). */
  function Split(s: string): seq<string>
  {
    if ',' !in s then [s] else DropTrailingEmpty(Fields(s))
  }

  lemma {:induction false} FieldsNoComma(s: string)
    requires ',' !in s
    ensures Fields(s) == [s]
    decreases |s|
  {
    if |s| > 0 {
      assert ',' !in s[1..] by {
        forall i | 0 <= i < |s[1..]| ensures s[1..][i] != ',' {
          assert s[1..][i] == s[i + 1];
        }
      }
      FieldsNoComma(s[1..]);
      assert [s[0]] + s[1..] == s;
    }
  }

  lemma {:induction false} FieldsAfterName(name: string, rest: string)
    requires ',' !in name
    ensures Fields(name + "," + rest) == [name] + Fields(rest)
    decreases |name|
  {
    var s := name + "," + rest;
    if |name| == 0 {
      assert s == "," + rest;
      assert s[1..] == rest;
    } else {
      assert s[1..] == name[1..] + "," + rest;
      assert ',' !in name[1..] by {
        forall i | 0 <= i < |name[1..]| ensures name[1..][i] != ',' {
          assert name[1..][i] == name[i + 1];
        }
      }
      FieldsAfterName(name[1..], rest);
      assert [name[0]] + name[1..] == name;
    }
  }

  /** A saved line splits back into its name and its score text. */
  lemma SplitSavedLine(name: string, score: string)
    requires ',' !in name && ',' !in score && score != ""
    ensures Split(name + "," + score) == [name, score]
  {
    var s := name + "," + score;
    assert s[|name|] == ',';
    FieldsAfterName(name, score);
    FieldsNoComma(score);
  }

  // ---------------------------------------------------------------
  // Loading: filter, then a stable descending sort by score
  // ---------------------------------------------------------------

  /** The records of the lines whose split has exactly two fields, in
      file order. */
  function Kept(lines: seq<string>): (rs: seq<Record>)
    ensures forall k :: 0 <= k < |rs| ==> |rs[k]| == 2
    decreases |lines|
  {
    if |lines| == 0 then []
    else
      var last := Split(lines[|lines| - 1]);
      Kept(lines[..|lines| - 1]) + (if |last| == 2 then [last] else [])
  }

  /** The comparator's key: the second field as an int. */
  function Key(r: Record): int
  {
    if |r| >= 2 then ParseInt(r[1]) else 0
  }

  // The sort below is stated for any key, and used with `Key`.

  predicate SortedDesc(rs: seq<Record>, key: Record -> int)
  {
    forall i, j :: 0 <= i < j < |rs| ==> key(rs[i]) >= key(rs[j])
  }

  /** The records with key v, in order. */
  function WithKey(rs: seq<Record>, key: Record -> int, v: int): seq<Record>
    decreases |rs|
  {
    if |rs| == 0 then []
    else WithKey(rs[..|rs| - 1], key, v) + (if key(rs[|rs| - 1]) == v then [rs[|rs| - 1]] else [])
  }

  /** Puts r after every record whose key is at least r's. */
  function Insert(r: Record, rs: seq<Record>, key: Record -> int): seq<Record>
    decreases |rs|
  {
    if |rs| == 0 then [r]
    else if key(rs[0]) >= key(r) then [rs[0]] + Insert(r, rs[1..], key)
    else [r] + rs
  }

  /** The list's `sort` with a descending comparator on `key`. The
      library sort is stable; this insertion sort is too, and the lemmas
      below state what it gives: descending, a permutation, and equal
      keys in input order. */
  function SortBy(rs: seq<Record>, key: Record -> int): seq<Record>
    decreases |rs|
  {
    if |rs| == 0 then [] else Insert(rs[|rs| - 1], SortBy(rs[..|rs| - 1], key), key)
  }

  lemma {:induction false} WithKeyAppend(a: seq<Record>, b: seq<Record>, key: Record -> int, v: int)
    ensures WithKey(a + b, key, v) == WithKey(a, key, v) + WithKey(b, key, v)
    decreases |b|
  {
    if |b| == 0 {
      assert a + b == a;
    } else {
      var ab := a + b;
      assert ab[..|ab| - 1] == a + b[..|b| - 1];
      assert ab[|ab| - 1] == b[|b| - 1];
      WithKeyAppend(a, b[..|b| - 1], key, v);
    }
  }

  lemma WithKeySingle(r: Record, key: Record -> int, v: int)
    ensures WithKey([r], key, v) == if key(r) == v then [r] else []
  {
    assert [r][..0] == [];
  }

  /** Insertion adds r and nothing else. */
  lemma {:induction false} InsertElements(r: Record, rs: seq<Record>, key: Record -> int)
    ensures multiset(Insert(r, rs, key)) == multiset(rs) + multiset{r}
    ensures |Insert(r, rs, key)| == |rs| + 1
    decreases |rs|
  {
    if |rs| > 0 && key(rs[0]) >= key(r) {
      InsertElements(r, rs[1..], key);
      assert rs == [rs[0]] + rs[1..];
    }
  }

  /** Every record of an insertion is r or a record of rs. */
  lemma {:induction false} InsertFrom(r: Record, rs: seq<Record>, key: Record -> int, j: int)
    requires 0 <= j < |Insert(r, rs, key)|
    ensures Insert(r, rs, key)[j] == r || exists m :: 0 <= m < |rs| && rs[m] == Insert(r, rs, key)[j]
    decreases |rs|
  {
    if |rs| > 0 && key(rs[0]) >= key(r) && j > 0 {
      InsertFrom(r, rs[1..], key, j - 1);
      if Insert(r, rs, key)[j] != r {
        var m :| 0 <= m < |rs[1..]| && rs[1..][m] == Insert(r, rs, key)[j];
        assert rs[m + 1] == Insert(r, rs, key)[j];
      }
    } else if |rs| > 0 && key(rs[0]) < key(r) && j > 0 {
      assert rs[j - 1] == Insert(r, rs, key)[j];
    }
  }

  lemma SortedTail(rs: seq<Record>, key: Record -> int)
    requires SortedDesc(rs, key) && |rs| > 0
    ensures SortedDesc(rs[1..], key)
  {
    var tail := rs[1..];
    forall i, j | 0 <= i < j < |tail| ensures key(tail[i]) >= key(tail[j]) {
      assert tail[i] == rs[i + 1] && tail[j] == rs[j + 1];
    }
  }

  /** A record with a key at least every key of a descending list can
      go in front of it. */
  lemma ConsSorted(x: Record, rs: seq<Record>, key: Record -> int)
    requires SortedDesc(rs, key)
    requires forall j :: 0 <= j < |rs| ==> key(x) >= key(rs[j])
    ensures SortedDesc([x] + rs, key)
  {
    var out := [x] + rs;
    forall i, j | 0 <= i < j < |out| ensures key(out[i]) >= key(out[j]) {
      assert out[j] == rs[j - 1];
      if i > 0 {
        assert out[i] == rs[i - 1];
      }
    }
  }

  /** Insertion into a descending list keeps it descending. */
  lemma {:induction false} InsertSorted(r: Record, rs: seq<Record>, key: Record -> int)
    requires SortedDesc(rs, key)
    ensures SortedDesc(Insert(r, rs, key), key)
    decreases |rs|
  {
    if |rs| == 0 {
    } else if key(rs[0]) >= key(r) {
      var tail := rs[1..];
      SortedTail(rs, key);
      InsertSorted(r, tail, key);
      var ins := Insert(r, tail, key);
      forall j | 0 <= j < |ins| ensures key(rs[0]) >= key(ins[j]) {
        InsertFrom(r, tail, key, j);
        if ins[j] != r {
          var m :| 0 <= m < |tail| && tail[m] == ins[j];
          assert tail[m] == rs[m + 1];
        }
      }
      ConsSorted(rs[0], ins, key);
    } else {
      ConsSorted(r, rs, key);
    }
  }

  /** The records of key v in an insertion that goes past the head:
      the head's, then those of the insertion into the tail. */
  lemma InsertWithKeyPast(r: Record, rs: seq<Record>, key: Record -> int, v: int, mine: seq<Record>)
    requires |rs| > 0 && key(rs[0]) >= key(r)
    requires WithKey(Insert(r, rs[1..], key), key, v) == WithKey(rs[1..], key, v) + mine
    ensures WithKey(Insert(r, rs, key), key, v) == WithKey(rs, key, v) + mine
  {
    var tail := rs[1..];
    var ins := Insert(r, tail, key);
    assert Insert(r, rs, key) == [rs[0]] + ins;
    assert rs == [rs[0]] + tail;
    WithKeyAppend([rs[0]], ins, key, v);
    WithKeyAppend([rs[0]], tail, key, v);
  }

  /** The records of key v in an insertion in front of rs. */
  lemma InsertWithKeyFront(r: Record, rs: seq<Record>, key: Record -> int, v: int)
    requires SortedDesc(rs, key) && |rs| > 0 && key(rs[0]) < key(r)
    ensures WithKey(Insert(r, rs, key), key, v) == WithKey(rs, key, v) + (if key(r) == v then [r] else [])
  {
    assert Insert(r, rs, key) == [r] + rs;
    WithKeyAppend([r], rs, key, v);
    WithKeySingle(r, key, v);
    if key(r) == v {
      WithKeyBelow(rs, key, v);
      assert WithKey(Insert(r, rs, key), key, v) == [r] + [];
    } else {
      assert WithKey(Insert(r, rs, key), key, v) == [] + WithKey(rs, key, v);
    }
  }

  /** Insertion puts r after the records of equal key already there. */
  lemma {:induction false} InsertWithKey(r: Record, rs: seq<Record>, key: Record -> int, v: int)
    requires SortedDesc(rs, key)
    ensures WithKey(Insert(r, rs, key), key, v) == WithKey(rs, key, v) + (if key(r) == v then [r] else [])
    decreases |rs|
  {
    if |rs| == 0 {
      assert Insert(r, rs, key) == [r];
      WithKeySingle(r, key, v);
    } else if key(rs[0]) >= key(r) {
      SortedTail(rs, key);
      InsertWithKey(r, rs[1..], key, v);
      InsertWithKeyPast(r, rs, key, v, if key(r) == v then [r] else []);
    } else {
      InsertWithKeyFront(r, rs, key, v);
    }
  }

  /** No record of a descending list whose head's key is below v has
      key v. */
  lemma {:induction false} WithKeyBelow(rs: seq<Record>, key: Record -> int, v: int)
    requires SortedDesc(rs, key) && |rs| > 0 && key(rs[0]) < v
    ensures WithKey(rs, key, v) == []
    decreases |rs|
  {
    if |rs| > 1 {
      var init := rs[..|rs| - 1];
      assert SortedDesc(init, key) by {
        forall i, j | 0 <= i < j < |init| ensures key(init[i]) >= key(init[j]) {
          assert init[i] == rs[i] && init[j] == rs[j];
        }
      }
      WithKeyBelow(init, key, v);
    }
  }

  /** The sort gives a descending permutation of its input that keeps the
      records of each key in their input order (stability). */
  lemma {:induction false} SortByProps(rs: seq<Record>, key: Record -> int)
    ensures SortedDesc(SortBy(rs, key), key)
    ensures multiset(SortBy(rs, key)) == multiset(rs)
    ensures |SortBy(rs, key)| == |rs|
    ensures forall v :: WithKey(SortBy(rs, key), key, v) == WithKey(rs, key, v)
    decreases |rs|
  {
    if |rs| > 0 {
      var init := rs[..|rs| - 1];
      var r := rs[|rs| - 1];
      SortByProps(init, key);
      InsertElements(r, SortBy(init, key), key);
      InsertSorted(r, SortBy(init, key), key);
      assert rs == init + [r];
      forall v ensures WithKey(SortBy(rs, key), key, v) == WithKey(rs, key, v) {
        InsertWithKey(r, SortBy(init, key), key, v);
        WithKeyAppend(init, [r], key, v);
        WithKeySingle(r, key, v);
      }
    }
  }

  /** In a descending list no record has a larger key than the first. */
  lemma FirstIsBest(rs: seq<Record>, key: Record -> int, r: Record)
    requires SortedDesc(rs, key) && r in multiset(rs)
    ensures key(r) <= key(rs[0])
  {
    var k :| 0 <= k < |rs| && rs[k] == r;
  }

  /** The records `loadScores` returns from a file with these lines (an
      empty list for a missing file). */
  function Loaded(present: bool, lines: seq<string>): seq<Record>
  {
    if present then SortBy(Kept(lines), Key) else []
  }

  /** What `parseInt` needs of the file: the sort compares, and so parses,
      every second field once two or more records are kept. */
  predicate SortableFile(present: bool, lines: seq<string>)
  {
    present && |Kept(lines)| >= 2 ==> forall k :: 0 <= k < |Kept(lines)| ==> ScoreFieldOk(Kept(lines)[k][1])
  }

  lemma SortedOfDiff(rs: seq<Record>, r: Record)
    requires r in rs
    ensures r in SortBy(rs, Key)
  {
    SortByProps(rs, Key);
    assert r in multiset(rs);
  }

  lemma {:induction false} KeptAppend(lines: seq<string>, line: string)
    ensures Kept(lines + [line]) == Kept(lines) + (if |Split(line)| == 2 then [Split(line)] else [])
  {
    assert (lines + [line])[..|lines|] == lines;
  }

  /** A line has no line break inside it for `Scanner.nextLine`. */
  predicate NoLineBreak(s: string)
  {
    forall i :: 0 <= i < |s| ==> s[i] !in {'\n', '\r', '\U{0085}', '\U{2028}', '\U{2029}'}
  }

  /** Once `name,score` is appended, where the name contains no comma and
      no line break, the records a present file loads include
      `[name, toString(score)]`. */
  lemma SavedRecordLoaded(lines: seq<string>, name: string, score: int32)
    requires ',' !in name && NoLineBreak(name)
    ensures [name, IntToString(score)] in Loaded(true, lines + [name + "," + IntToString(score)])
  {
    var digits := IntToString(score);
    assert ',' !in digits by {
      if score < 0 {
        assert digits[0] == '-' && digits[1..] == Digits(-(score as int));
        forall i | 0 <= i < |digits| ensures digits[i] != ',' {
          if i > 0 { assert digits[i] == Digits(-(score as int))[i - 1]; }
        }
      }
    }
    SplitSavedLine(name, digits);
    KeptAppend(lines, name + "," + digits);
    var kept := Kept(lines + [name + "," + digits]);
    assert kept[|kept| - 1] == [name, digits];
    SortedOfDiff(kept, [name, digits]);
  }

  /** Round trip: once `name,score` is saved, where the name contains no
      comma and no line break, in a file `LoadScores` can sort, the
      loaded records include `[name, toString(score)]`, whose score
      parses back to `score`. */
  lemma SaveThenLoad(lines: seq<string>, name: string, score: int32)
    requires ',' !in name && NoLineBreak(name)
    requires SortableFile(true, lines + [name + "," + IntToString(score)])
    ensures [name, IntToString(score)] in Loaded(true, lines + [name + "," + IntToString(score)])
    ensures Key([name, IntToString(score)]) == score as int
  {
    SavedRecordLoaded(lines, name, score);
    IntToStringRoundTrip(score);
  }

  class ScoreFile {
    /** The lines of the score file, and whether it exists. */
    var lines: seq<string>
    var present: bool

    /** A missing file holds no lines. */
    predicate Valid()
      reads this
    {
      !present ==> lines == []
    }

    constructor (lines: seq<string>, present: bool)
      requires present || lines == []
      ensures Valid()
      ensures this.lines == lines && this.present == present
    {
      this.lines := lines;
      this.present := present;
    }

    /** Appends one line `name,score`, creating the file if needed; the
        earlier lines are unchanged. An I/O error leaves the file alone. */
    method SaveScore(name: string, score: int32, ioError: bool)
      requires Valid()
      modifies this
      ensures Valid()
      ensures !ioError && !old(present) ==> lines == [name + "," + IntToString(score)]
      ensures ioError ==> lines == old(lines) && present == old(present)
      ensures !ioError ==> lines == old(lines) + [name + "," + IntToString(score)] && present
    {
      if ioError {
        return;
      }
      lines := lines + [name + "," + IntToString(score)];
      present := true;
    }

    /** Truncates the file to nothing (creating it if needed). */
    method ResetScores(ioError: bool)
      requires Valid()
      modifies this
      ensures Valid()
      ensures ioError ==> lines == old(lines) && present == old(present)
      ensures !ioError ==> lines == [] && present && Loaded(present, lines) == []
    {
      if ioError {
        return;
      }
      lines := [];
      present := true;
    }

    /** Reads every line, keeps those that split into two fields, and
        sorts them by descending score, stably. A missing file gives no
        records. */
    method LoadScores() returns (list: seq<Record>)
      requires Valid() && SortableFile(present, lines)
      ensures list == Loaded(present, lines)
      ensures SortedDesc(list, Key)
      ensures present ==> multiset(list) == multiset(Kept(lines))
      ensures present ==> forall v :: WithKey(list, Key, v) == WithKey(Kept(lines), Key, v)
      ensures !present ==> list == []
    {
      list := [];
      if !present {
        return;
      }
      for i := 0 to |lines|
        invariant list == Kept(lines[..i])
      {
        var parts := Split(lines[i]);
        KeptAppend(lines[..i], lines[i]);
        assert lines[..i + 1] == lines[..i] + [lines[i]];
        if |parts| == 2 {
          list := list + [parts];
        }
      }
      assert lines[..|lines|] == lines;
      SortByProps(list, Key);
      list := SortBy(list, Key);
    }

    /** True for an empty record list, and otherwise exactly when the
        score beats the top score, that is every recorded score. */
    method IsNewHighScore(score: int32) returns (r: bool)
      requires Valid()
      requires present ==> forall k :: 0 <= k < |Kept(lines)| ==> ScoreFieldOk(Kept(lines)[k][1])
      ensures r <==> forall rec :: rec in Loaded(present, lines) ==> score as int > Key(rec)
      ensures Loaded(present, lines) == [] ==> r
    {
      var scores := LoadScores();
      if |scores| == 0 {
        return true;
      }
      assert scores[0] in multiset(Kept(lines));
      var best := ParseInt(scores[0][1]);
      r := score as int > best;
      forall rec | rec in scores ensures Key(rec) <= best {
        FirstIsBest(scores, Key, rec);
      }
    }
  }
}
