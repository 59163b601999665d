/** heredian-lib/src/file_manager.rs: the `key=value` configuration files the
    client reads its characters, sprites and maps from. The file is given as
    its sequence of lines (what `BufReader::lines` yields). */
module FileManager {
  import opened Common

  type Text = seq<char>

  /** `char::is_whitespace`: the Unicode White_Space property. */
  predicate IsWhitespace(c: char)
  {
    ('\t' <= c <= '\r') || c == ' ' || c == '\U{85}' || c == '\U{A0}' || c == '\U{1680}'
    || ('\U{2000}' <= c <= '\U{200A}') || c == '\U{2028}' || c == '\U{2029}'
    || c == '\U{202F}' || c == '\U{205F}' || c == '\U{3000}'
  }

  /** `str::trim_end`: drops the trailing whitespace and nothing else. */
  function TrimEnd(s: Text): (r: Text)
    ensures |r| <= |s| && r == s[..|r|]
    ensures forall k :: |r| <= k < |s| ==> IsWhitespace(s[k])
    ensures r == [] || !IsWhitespace(r[|r| - 1])
  {
    if |s| == 0 || !IsWhitespace(s[|s| - 1]) then s else TrimEnd(s[..|s| - 1])
  }

  /** Where the comment of a line starts: the earliest `;` or `#`, or the end
      of the line when it has neither. */
  function CommentStart(line: Text): (r: nat)
    ensures r <= |line|
    ensures forall k :: 0 <= k < r ==> line[k] != ';' && line[k] != '#'
    ensures r < |line| ==> line[r] == ';' || line[r] == '#'
  {
    match (IndexOf(line, ';'), IndexOf(line, '#'))
    case (Some(semi), Some(hash)) => if semi <= hash then semi else hash
    case (Some(semi), None) => semi
    case (None, Some(hash)) => hash
    case (None, None) => |line|
  }

  /** The first piece of `s.split(sep)`: the text before the first `sep`,
      or all of `s` when it has none. */
  function UpTo(s: Text, sep: char): (r: Text)
    ensures |r| <= |s| && r == s[..|r|] && sep !in r
    ensures |r| < |s| ==> s[|r|] == sep
  {
    match IndexOf(s, sep)
    case None => s
    case Some(i) => s[..i]
  }

  /** `UpTo` is the only prefix free of `sep` that ends at a `sep` or at the
      end of the text. */
  lemma UpToUnique(s: Text, sep: char, p: Text)
    requires |p| <= |s| && p == s[..|p|] && sep !in p
    requires |p| == |s| || s[|p|] == sep
    ensures UpTo(s, sep) == p
  {
  }

  /** What one line of the file contributes. */
  datatype LineKind =
    | Blank                        // nothing left once the comment and trailing blanks go
    | Malformed(text: Text)        // no `=`: `load` panics, printing the truncated line
    | Entry(key: Text, value: Text)

  /** The part of a line before its comment. */
  function Body(line: Text): (b: Text)
    ensures |b| <= |line| && b == line[..|b|]
    ensures forall k :: 0 <= k < |b| ==> b[k] != ';' && b[k] != '#'
  {
    line[..CommentStart(line)]
  }

  /** The body of the loop of `ConfigFile::load` for one line: truncate at
      the comment, skip a line that is blank after `trim_end`, reject a line
      that `split("=")` cuts into fewer than two pieces (no `=`), and take
      the first piece (the text before the first `=`) as key and the second
      (the text between the first and the second `=`) as value, neither of
      them trimmed. */
  function ParseLine(line: Text): (r: LineKind)
    ensures r.Malformed? ==> '=' !in r.text
    ensures r.Entry? ==> '=' !in r.key && '=' !in r.value
  {
    var body := Body(line);
    if TrimEnd(body) == [] then Blank
    else if '=' !in body then Malformed(body)
    else
      var key := UpTo(body, '=');
      Entry(key, UpTo(body[|key| + 1..], '='))
  }

  /** A line is blank exactly when nothing but whitespace precedes its
      comment; it is malformed exactly when it is not blank and no `=`
      precedes its comment. */
  lemma ParseLineKind(line: Text)
    ensures ParseLine(line).Blank? <==> forall k :: 0 <= k < |Body(line)| ==> IsWhitespace(Body(line)[k])
    ensures ParseLine(line).Malformed? <==> !ParseLine(line).Blank? && '=' !in Body(line)
    ensures ParseLine(line).Malformed? ==> ParseLine(line).text == Body(line)
  {
  }

  /** On a text holding `=`, the first piece ends at the first `=` and the
      second runs from there to the second `=` or the end. */
  lemma SplitShape(body: Text)
    requires '=' in body
    ensures var key := UpTo(body, '=');
      var i := |key|;
      var value := UpTo(body[i + 1..], '=');
      var n := i + 1 + |value|;
      n <= |body| && key == body[..i] && body[i] == '=' && value == body[i + 1..n]
      && '=' !in key && '=' !in value
      && (n == |body| || body[n] == '=')
  {
    var key := UpTo(body, '=');
    var rest := body[|key| + 1..];
    var value := UpTo(rest, '=');
    assert rest[..|value|] == body[|key| + 1..|key| + 1 + |value|];
  }

  /** An entry's key is the text of the body before its first `=`, and its
      value the text from there up to the second `=` or the end. */
  lemma ParseLineEntry(line: Text)
    requires ParseLine(line).Entry?
    ensures var body := Body(line);
      var key := ParseLine(line).key;
      var value := ParseLine(line).value;
      var i := |key|;
      var n := i + 1 + |value|;
      n <= |body| && key == body[..i] && body[i] == '=' && value == body[i + 1..n]
      && '=' !in key && '=' !in value
      && (n == |body| || body[n] == '=')
  {
    var body := Body(line);
    assert TrimEnd(body) != [] && '=' in body;
    var key := UpTo(body, '=');
    assert |key| < |body|;
    assert ParseLine(line) == Entry(key, UpTo(body[|key| + 1..], '='));
    SplitShape(body);
  }

  /** Neither the key nor the value of an entry holds `=`, `;` or `#`. */
  lemma EntryIsClean(line: Text)
    requires ParseLine(line).Entry?
    ensures forall c :: c in ParseLine(line).key ==> c != '=' && c != ';' && c != '#'
    ensures forall c :: c in ParseLine(line).value ==> c != '=' && c != ';' && c != '#'
  {
    ParseLineEntry(line);
  }

  /** The line `key=value` with no comment. */
  function EntryLine(key: Text, value: Text): Text
  {
    key + ['='] + value
  }

  /** Writing a clean entry whose key is not blank and reading it back gives
      the entry: `ParseLine` inverts `EntryLine`. */
  lemma ParseEntryLine(key: Text, value: Text)
    requires forall c :: c in key ==> c != '=' && c != ';' && c != '#'
    requires forall c :: c in value ==> c != '=' && c != ';' && c != '#'
    requires exists k :: 0 <= k < |key| && !IsWhitespace(key[k])
    ensures ParseLine(EntryLine(key, value)) == Entry(key, value)
  {
    var line := EntryLine(key, value);
    var i := |key|;
    assert line[..i] == key && line[i] == '=' && line[i + 1..] == value;
    assert forall k :: 0 <= k < |line| ==> line[k] != ';' && line[k] != '#' by {
      forall k | 0 <= k < |line| ensures line[k] != ';' && line[k] != '#' {
        if k < i {
          assert line[k] == key[k] && key[k] in key;
        } else if k > i {
          assert line[k] == value[k - i - 1] && value[k - i - 1] in value;
        }
      }
    }
    assert CommentStart(line) == |line|;
    assert Body(line) == line;
    var k :| 0 <= k < |key| && !IsWhitespace(key[k]);
    assert line[k] == key[k];
    UpToUnique(line, '=', key);
    UpToUnique(line[i + 1..], '=', value);
  }

  /** The cache of a loaded file. */
  datatype ConfigFile = ConfigFile(cache: map<Text, Text>)

  /** `load` panics on a line without `=`; the model returns the failing
      line's index and its truncated text instead. */
  datatype LoadError = UnexpectedLine(index: nat, text: Text)

  /** The value that stands for "no value": such a line is not stored. */
  const Null: Text := "NULL"

  /** The outcome of every line, in order. */
  function Kinds(lines: seq<Text>): (kinds: seq<LineKind>)
    ensures |kinds| == |lines|
  {
    if |lines| == 0 then [] else Kinds(lines[..|lines| - 1]) + [ParseLine(lines[|lines| - 1])]
  }

  lemma {:induction false} KindsAt(lines: seq<Text>, i: nat)
    requires i < |lines|
    ensures Kinds(lines)[i] == ParseLine(lines[i])
  {
    var last := |lines| - 1;
    var init := Kinds(lines[..last]);
    assert Kinds(lines) == init + [ParseLine(lines[last])];
    if i < last {
      KindsAt(lines[..last], i);
      assert lines[..last][i] == lines[i];
    }
  }

  /** The cache the loop of `load` builds from a run of line outcomes: a
      blank line changes nothing, a `NULL` value is not inserted (and leaves
      an earlier value of that key in place), any other entry overwrites
      the key's earlier value, and the first malformed line stops the load. */
  function Fold(kinds: seq<LineKind>): (r: Result<ConfigFile, LoadError>)
    ensures r.Success? <==> forall i :: 0 <= i < |kinds| ==> !kinds[i].Malformed?
    ensures r.Failure? ==>
      r.error.index < |kinds| && kinds[r.error.index] == Malformed(r.error.text)
      && forall i :: 0 <= i < r.error.index ==> !kinds[i].Malformed?
  {
    if |kinds| == 0 then Success(ConfigFile(map[]))
    else
      var last := |kinds| - 1;
      var prior := Fold(kinds[..last]);
      assert forall i :: 0 <= i < last ==> kinds[..last][i] == kinds[i];
      if prior.Failure? then prior
      else match kinds[last]
        case Blank => prior
        case Malformed(text) => Failure(UnexpectedLine(last, text))
        case Entry(key, value) =>
          if value == Null then prior
          else Success(ConfigFile(prior.value.cache[key := value]))
  }

  /** What `ConfigFile::load` makes of the lines of a file. */
  function Loaded(lines: seq<Text>): Result<ConfigFile, LoadError>
  {
    Fold(Kinds(lines))
  }

  /** Once the outcomes before line `i` load and line `i` is malformed, the
      whole load fails at line `i`, whatever follows. */
  lemma FoldStops(kinds: seq<LineKind>, i: nat)
    requires i < |kinds| && Fold(kinds[..i]).Success? && kinds[i].Malformed?
    ensures Fold(kinds) == Failure(UnexpectedLine(i, kinds[i].text))
  {
    forall j | 0 <= j < i ensures !kinds[j].Malformed? {
      assert kinds[..i][j] == kinds[j];
    }
  }

  /** `ConfigFile::load` over the lines of the file: the loop inserting into
      the cache. */
  method Load(lines: seq<Text>) returns (r: Result<ConfigFile, LoadError>)
    ensures r == Loaded(lines)
  {
    ghost var kinds := Kinds(lines);
    var cache: map<Text, Text> := map[];
    var i := 0;
    while i < |lines|
      invariant 0 <= i <= |lines|
      invariant Fold(kinds[..i]) == Success(ConfigFile(cache))
    {
      var kind := ParseLine(lines[i]);
      KindsAt(lines, i);
      assert kinds[..i + 1][..i] == kinds[..i];
      match kind {
        case Blank =>
        case Malformed(text) =>
          FoldStops(kinds, i);
          return Failure(UnexpectedLine(i, text));
        case Entry(key, value) =>
          if value != Null {
            cache := cache[key := value];
          }
      }
      i := i + 1;
    }
    assert kinds[..i] == kinds;
    r := Success(ConfigFile(cache));
  }

  /** Outcome `kind` stores a value for `key`. */
  predicate StoresKey(kind: LineKind, key: Text)
  {
    kind.Entry? && kind.key == key && kind.value != Null
  }

  /** Line `line` stores a value for `key`. */
  predicate Stores(line: Text, key: Text)
  {
    StoresKey(ParseLine(line), key)
  }

  /** A loaded key holds the value of the LAST line that stores it, and a
      key no line stores is absent. */
  lemma {:induction false} FoldIsLastWriter(kinds: seq<LineKind>, key: Text)
    requires Fold(kinds).Success?
    ensures key in Fold(kinds).value.cache <==> exists i :: 0 <= i < |kinds| && StoresKey(kinds[i], key)
    ensures forall i :: 0 <= i < |kinds| && StoresKey(kinds[i], key)
                        && (forall j :: i < j < |kinds| ==> !StoresKey(kinds[j], key))
                        ==> Fold(kinds).value.cache[key] == kinds[i].value
  {
    if |kinds| > 0 {
      var last := |kinds| - 1;
      var prefix := kinds[..last];
      assert forall i :: 0 <= i < last ==> prefix[i] == kinds[i];
      FoldIsLastWriter(prefix, key);
      var cache := Fold(kinds).value.cache;
      if StoresKey(kinds[last], key) {
        assert cache[key] == kinds[last].value;
      } else {
        assert key in cache <==> key in Fold(prefix).value.cache;
        assert key in cache ==> cache[key] == Fold(prefix).value.cache[key];
        forall i | 0 <= i < |kinds| && StoresKey(kinds[i], key)
          && (forall j :: i < j < |kinds| ==> !StoresKey(kinds[j], key))
          ensures cache[key] == kinds[i].value
        {
          assert i < last;
          assert forall j :: i < j < last ==> !StoresKey(prefix[j], key);
        }
      }
    }
  }

  /** Entry text free of `=`, `;` and `#`, and a value other than `NULL`. */
  predicate CleanEntry(key: Text, value: Text)
  {
    value != Null
    && (forall c :: c in key ==> c != '=' && c != ';' && c != '#')
    && (forall c :: c in value ==> c != '=' && c != ';' && c != '#')
  }

  lemma {:induction false} FoldIsClean(kinds: seq<LineKind>)
    requires Fold(kinds).Success?
    requires forall i :: 0 <= i < |kinds| && kinds[i].Entry? && kinds[i].value != Null ==> CleanEntry(kinds[i].key, kinds[i].value)
    ensures forall key :: key in Fold(kinds).value.cache ==> CleanEntry(key, Fold(kinds).value.cache[key])
  {
    if |kinds| > 0 {
      var last := |kinds| - 1;
      assert forall i :: 0 <= i < last ==> kinds[..last][i] == kinds[i];
      FoldIsClean(kinds[..last]);
    }
  }

  /** Every stored key and value is free of `=`, `;` and `#`, and no stored
      value is `NULL`. */
  lemma StoredTextIsClean(lines: seq<Text>)
    requires Loaded(lines).Success?
    ensures forall key :: key in Loaded(lines).value.cache ==> CleanEntry(key, Loaded(lines).value.cache[key])
  {
    var kinds := Kinds(lines);
    forall i | 0 <= i < |kinds| && kinds[i].Entry? && kinds[i].value != Null
      ensures CleanEntry(kinds[i].key, kinds[i].value)
    {
      KindsAt(lines, i);
      EntryIsClean(lines[i]);
    }
    FoldIsClean(kinds);
  }

  /** `get_string`. */
  function GetString(cfg: ConfigFile, key: Text): (r: Option<Text>)
    ensures r.Some? <==> key in cfg.cache
    ensures r.Some? ==> r.value == cfg.cache[key]
  {
    if key in cfg.cache then Some(cfg.cache[key]) else None
  }

  const I32Min := -0x8000_0000
  const I32Max := 0x7fff_ffff

  predicate IsDigit(c: char) { '0' <= c <= '9' }

  predicate AllDigits(s: Text) { forall k :: 0 <= k < |s| ==> IsDigit(s[k]) }

  function DigitValue(c: char): nat
    requires IsDigit(c)
  {
    c as int - '0' as int
  }

  /** The number a run of decimal digits spells. */
  function DigitsValue(s: Text): nat
    requires AllDigits(s)
  {
    if |s| == 0 then 0 else DigitsValue(s[..|s| - 1]) * 10 + DigitValue(s[|s| - 1])
  }

  /** `i32::from_str`: an optional `+` or `-`, then one or more ASCII digits,
      and a value that fits in 32 bits; anything else (blanks included) is an
      error. */
  function ParseI32(s: Text): (r: Option<int>)
    ensures r.Some? ==> I32Min <= r.value <= I32Max
    ensures r.Some? ==> |s| > 0 && (IsDigit(s[0]) || s[0] == '+' || s[0] == '-')
  {
    var signed := |s| > 0 && (s[0] == '+' || s[0] == '-');
    var digits := if signed then s[1..] else s;
    if |digits| == 0 || !AllDigits(digits) then None
    else
      var v: int := if signed && s[0] == '-' then 0 - DigitsValue(digits) else DigitsValue(digits);
      if I32Min <= v <= I32Max then Some(v) else None
  }

  /** A text holding whitespace anywhere never parses: `from_str` does not
      trim, so `size = 32` spelled with blanks fails. */
  lemma ParseRejectsWhitespace(s: Text, k: nat)
    requires k < |s| && IsWhitespace(s[k])
    ensures ParseI32(s) == None
  {
    if |s| > 0 && (s[0] == '+' || s[0] == '-') {
      assert k > 0 && !IsDigit(s[1..][k - 1]);
    } else {
      assert !IsDigit(s[k]);
    }
  }

  /** Decimal digits of `n`, most significant first. */
  function ShowNat(n: nat): (r: Text)
    ensures |r| >= 1 && AllDigits(r)
  {
    var c := ('0' as int + n % 10) as char;
    if n < 10 then [c] else ShowNat(n / 10) + [c]
  }

  /** The decimal spelling of an integer, `-` first when negative. */
  function ShowInt(v: int): Text
  {
    if v < 0 then ['-'] + ShowNat(-v) else ShowNat(v)
  }

  lemma {:induction false} DigitsOfShowNat(n: nat)
    ensures DigitsValue(ShowNat(n)) == n
  {
    var s := ShowNat(n);
    assert s[..|s| - 1] == if n < 10 then [] else ShowNat(n / 10);
    if n >= 10 {
      DigitsOfShowNat(n / 10);
    }
  }

  /** Every 32-bit integer spelled in decimal parses back to itself. */
  lemma ParseShowInt(v: int)
    requires I32Min <= v <= I32Max
    ensures ParseI32(ShowInt(v)) == Some(v)
  {
    var s := ShowInt(v);
    if v < 0 {
      DigitsOfShowNat(-v);
      assert s[0] == '-' && s[1..] == ShowNat(-v);
      assert 0 - DigitsValue(s[1..]) == v;
    } else {
      DigitsOfShowNat(v);
      assert s == ShowNat(v) && IsDigit(s[0]);
      assert DigitsValue(s) == v;
    }
  }

  /** `get::<i32>`: none for an absent key; for a present one, the parsed
      value, or the failure `expect` panics on. */
  function GetI32(cfg: ConfigFile, key: Text): (r: Option<Result<int, Text>>)
    ensures r.None? <==> key !in cfg.cache
    ensures r.Some? && r.value.Success? ==> I32Min <= r.value.value <= I32Max
    ensures r.Some? ==> (r.value.Failure? <==> ParseI32(cfg.cache[key]).None?)
  {
    match GetString(cfg, key)
    case None => None
    case Some(text) =>
      match ParseI32(text)
      case None => Some(Failure(text))
      case Some(v) => Some(Success(v))
  }

  /** The lookup `config_file.get(key).expect(..)`: the value, or none where
      the source panics (key absent or not an integer). */
  function RequireI32(cfg: ConfigFile, key: Text): (r: Option<int>)
    ensures r.Some? <==> key in cfg.cache && ParseI32(cfg.cache[key]).Some?
    ensures r.Some? ==> ParseI32(cfg.cache[key]) == Some(r.value)
  {
    match GetI32(cfg, key)
    case Some(Success(v)) => Some(v)
    case _ => None
  }

  /** The decimal spelling of an integer is a clean value other than `NULL`. */
  lemma ShowIntIsClean(v: int)
    ensures CleanEntry("k", ShowInt(v))
  {
    var value := ShowInt(v);
    forall c | c in value ensures c != '=' && c != ';' && c != '#' {
      var k :| 0 <= k < |value| && value[k] == c;
      if v < 0 {
        assert k == 0 || IsDigit(ShowNat(-v)[k - 1]);
      } else {
        assert IsDigit(ShowNat(v)[k]);
      }
    }
    assert value[0] == '-' || IsDigit(value[0]);
  }

  /** Appending a line that stores `value` under `key` to a file that loads
      sets that key and leaves every other key as it was. */
  lemma LoadAppendEntry(lines: seq<Text>, line: Text, key: Text, value: Text)
    requires Loaded(lines).Success? && ParseLine(line) == Entry(key, value) && value != Null
    ensures Loaded(lines + [line]) == Success(ConfigFile(Loaded(lines).value.cache[key := value]))
  {
    var all := lines + [line];
    assert all[..|lines|] == lines;
    var kinds := Kinds(all);
    assert kinds == Kinds(lines) + [Entry(key, value)];
    assert kinds[..|lines|] == Kinds(lines);
  }

  /** Loading the line `key=n` after any clean file makes `get::<i32>` return
      `n`: the loader and the integer lookup agree end to end. */
  lemma LoadedEntryReadsBack(lines: seq<Text>, key: Text, v: int)
    requires Loaded(lines).Success?
    requires I32Min <= v <= I32Max
    requires forall c :: c in key ==> c != '=' && c != ';' && c != '#'
    requires exists k :: 0 <= k < |key| && !IsWhitespace(key[k])
    ensures Loaded(lines + [EntryLine(key, ShowInt(v))]).Success?
    ensures GetI32(Loaded(lines + [EntryLine(key, ShowInt(v))]).value, key) == Some(Success(v))
  {
    var value := ShowInt(v);
    ShowIntIsClean(v);
    ParseEntryLine(key, value);
    LoadAppendEntry(lines, EntryLine(key, value), key, value);
    ParseShowInt(v);
  }
}
