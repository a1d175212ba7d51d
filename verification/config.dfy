/**
 * The string functions of the application settings (app/config.py): the
 * comma-separated replica list and the three field validators.
 */
module Config {
  import opened Wrappers

  /** The characters Python's `str.isspace` accepts: those `str.strip()` removes. */
  const Whitespace: set<char> := {
    '\t', '\n', '\U{0B}', '\U{0C}', '\r', '\U{1C}', '\U{1D}', '\U{1E}', '\U{1F}', ' ',
    '\U{85}', '\U{A0}', '\U{1680}',
    '\U{2000}', '\U{2001}', '\U{2002}', '\U{2003}', '\U{2004}', '\U{2005}',
    '\U{2006}', '\U{2007}', '\U{2008}', '\U{2009}', '\U{200A}',
    '\U{2028}', '\U{2029}', '\U{202F}', '\U{205F}', '\U{3000}'}

  predicate IsSpace(c: char) {
    c in Whitespace
  }

  predicate AllSpace(s: string) {
    forall k :: 0 <= k < |s| ==> IsSpace(s[k])
  }

  /** Where `s.lstrip()` starts: the index of the first non-whitespace character at or after `i`, or `|s|`. */
  function FirstNonSpace(s: string, i: nat): (j: nat)
    requires i <= |s|
    ensures i <= j <= |s|
    ensures forall k :: i <= k < j ==> IsSpace(s[k])
    ensures j == |s| || !IsSpace(s[j])
    decreases |s| - i
  {
    if i < |s| && IsSpace(s[i]) then FirstNonSpace(s, i + 1) else i
  }

  /** Where `s.rstrip()` ends, looking no further left than `lo`: one past the last non-whitespace character before `hi`, or `lo`. */
  function EndNonSpace(s: string, lo: nat, hi: nat): (j: nat)
    requires lo <= hi <= |s|
    ensures lo <= j <= hi
    ensures forall k :: j <= k < hi ==> IsSpace(s[k])
    ensures j == lo || !IsSpace(s[j - 1])
    decreases hi
  {
    if lo < hi && IsSpace(s[hi - 1]) then EndNonSpace(s, lo, hi - 1) else hi
  }

  /** The bounds of `s.strip()` within `s`. */
  function StripStart(s: string): nat
    ensures StripStart(s) <= |s|
  {
    FirstNonSpace(s, 0)
  }

  function StripEnd(s: string): (j: nat)
    ensures StripStart(s) <= j <= |s|
  {
    EndNonSpace(s, StripStart(s), |s|)
  }

  /**
   * Python's `str.strip()` with no argument: `s` without its leading and
   * trailing whitespace; empty exactly when `s` is all whitespace.
   */
  function Strip(s: string): (r: string)
    ensures r == [] <==> AllSpace(s)
    ensures r != [] ==> !IsSpace(r[0]) && !IsSpace(r[|r| - 1])
    ensures StripStart(s) + |r| <= |s| && r == s[StripStart(s)..StripStart(s) + |r|]
    ensures forall k :: 0 <= k < StripStart(s) ==> IsSpace(s[k])
    ensures forall k :: StripStart(s) + |r| <= k < |s| ==> IsSpace(s[k])
  {
    var i, j := StripStart(s), StripEnd(s);
    if i == j then
      assert forall k :: 0 <= k < |s| ==> (k < i || j <= k) ==> IsSpace(s[k]);
      s[i..j]
    else
      s[i..j]
  }

  function CountChar(s: string, c: char): nat
  {
    if |s| == 0 then 0 else (if s[0] == c then 1 else 0) + CountChar(s[1..], c)
  }

  /** Joins non-empty `parts` with `sep` between neighbours: the inverse of `Split`. */
  function Join(parts: seq<string>, sep: char): string
    requires |parts| >= 1
  {
    if |parts| == 1 then parts[0] else parts[0] + [sep] + Join(parts[1..], sep)
  }

  /** Python's `s.split(",")`: the comma-free segments between commas, at least one. */
  function Split(s: string): (parts: seq<string>)
    ensures |parts| == CountChar(s, ',') + 1
    ensures forall p :: p in parts ==> ',' !in p
    ensures Join(parts, ',') == s
  {
    if |s| == 0 then [""]
    else
      var rest := Split(s[1..]);
      if s[0] == ',' then
        assert s == [','] + s[1..];
        [""] + rest
      else
        assert s == [s[0]] + s[1..];
        var parts := [[s[0]] + rest[0]] + rest[1..];
        assert parts[1..] == rest[1..];
        parts
  }

  lemma {:induction false} SplitAppend(a: string, b: string)
    ensures Split(a + [','] + b) == Split(a) + Split(b)
  {
    if |a| == 0 {
      assert a + [','] + b == [','] + b;
      assert ([','] + b)[1..] == b;
    } else {
      assert (a + [','] + b)[1..] == a[1..] + [','] + b;
      SplitAppend(a[1..], b);
    }
  }

  /** Non-empty, with no whitespace at either end. */
  predicate Trimmed(p: string) {
    p != [] && !IsSpace(p[0]) && !IsSpace(p[|p| - 1])
  }

  lemma TrimmedIsStripped(p: string)
    requires Trimmed(p)
    ensures Strip(p) == p
  {
    assert StripStart(p) == 0;
    assert StripEnd(p) == |p|;
  }

  lemma StripIdempotent(s: string)
    ensures Strip(Strip(s)) == Strip(s)
  {
    if Strip(s) != [] {
      TrimmedIsStripped(Strip(s));
    }
  }

  predicate AllTrimmed(paths: seq<string>) {
    forall k :: 0 <= k < |paths| ==> Trimmed(paths[k])
  }

  predicate CommaFree(parts: seq<string>) {
    forall k :: 0 <= k < |parts| ==> ',' !in parts[k]
  }

  /** The stripped, non-empty segments in their original order. */
  function CleanSegments(segments: seq<string>): (paths: seq<string>)
    ensures |paths| <= |segments|
  {
    if |segments| == 0 then []
    else
      var p := Strip(segments[0]);
      var rest := CleanSegments(segments[1..]);
      if p == [] then rest else [p] + rest
  }

  /** Stripping never introduces a comma. */
  lemma StripCommaFree(s: string)
    requires ',' !in s
    ensures ',' !in Strip(s)
  {
    var r := Strip(s);
    assert forall k :: 0 <= k < |r| ==> r[k] == s[StripStart(s) + k];
  }

  lemma {:induction false} CleanSegmentsCommaFree(segments: seq<string>)
    requires CommaFree(segments)
    ensures CommaFree(CleanSegments(segments))
  {
    if |segments| > 0 {
      var p := Strip(segments[0]);
      var rest := CleanSegments(segments[1..]);
      assert CommaFree(segments[1..]) by {
        assert forall k :: 1 <= k < |segments| ==> segments[1..][k - 1] == segments[k];
      }
      CleanSegmentsCommaFree(segments[1..]);
      StripCommaFree(segments[0]);
      if p != [] {
        var paths := [p] + rest;
        assert CleanSegments(segments) == paths;
        assert forall k :: 1 <= k < |paths| ==> paths[k] == rest[k - 1];
      } else {
        assert CleanSegments(segments) == rest;
      }
    }
  }

  lemma {:induction false} CleanSegmentsTrimmed(segments: seq<string>)
    ensures AllTrimmed(CleanSegments(segments))
  {
    if |segments| > 0 {
      CleanSegmentsTrimmed(segments[1..]);
      var rest := CleanSegments(segments[1..]);
      if Strip(segments[0]) != [] {
        var paths := [Strip(segments[0])] + rest;
        assert forall k :: 1 <= k < |paths| ==> paths[k] == rest[k - 1];
      }
    }
  }

  lemma {:induction false} CleanSegmentsAppend(a: seq<string>, b: seq<string>)
    ensures CleanSegments(a + b) == CleanSegments(a) + CleanSegments(b)
  {
    if |a| == 0 {
      assert a + b == b;
    } else {
      assert (a + b)[1..] == a[1..] + b;
      CleanSegmentsAppend(a[1..], b);
    }
  }

  /** A string without commas is a single segment. */
  lemma {:induction false} SplitWithoutComma(s: string)
    ensures ',' !in s ==> Split(s) == [s]
  {
    if |s| > 0 && ',' !in s {
      assert ',' !in s[1..] by { assert forall k :: 0 <= k < |s| - 1 ==> s[1..][k] == s[k + 1]; }
      SplitWithoutComma(s[1..]);
      assert s == [s[0]] + s[1..];
    }
  }

  /**
   * `Settings.replica_paths_list`: split on commas, strip each piece, drop the
   * empty ones. A value without commas lists itself stripped, or nothing when
   * it is blank.
   */
  function ReplicaPathsList(raw: string): (paths: seq<string>)
    ensures |paths| <= CountChar(raw, ',') + 1
    ensures AllTrimmed(paths) && CommaFree(paths)
    ensures ',' !in raw ==> paths == (if AllSpace(raw) then [] else [Strip(raw)])
  {
    var segments := Split(raw);
    assert CommaFree(segments) by {
      assert forall k :: 0 <= k < |segments| ==> segments[k] in segments;
    }
    CleanSegmentsTrimmed(segments);
    CleanSegmentsCommaFree(segments);
    SplitWithoutComma(raw);
    CleanSegments(segments)
  }

  /** Every listed replica path is its own strip. */
  lemma ReplicaPathsStripped(raw: string)
    ensures forall p :: p in ReplicaPathsList(raw) ==> Strip(p) == p
  {
    var paths := ReplicaPathsList(raw);
    forall p | p in paths ensures Strip(p) == p {
      var k :| 0 <= k < |paths| && paths[k] == p;
      TrimmedIsStripped(p);
    }
  }

  /** Listing order follows the order of the comma-separated segments. */
  lemma ReplicaPathsListAppend(a: string, b: string)
    ensures ReplicaPathsList(a + [','] + b) == ReplicaPathsList(a) + ReplicaPathsList(b)
  {
    SplitAppend(a, b);
    CleanSegmentsAppend(Split(a), Split(b));
  }

  /** Made only of commas and whitespace. */
  predicate Blank(s: string) {
    forall k :: 0 <= k < |s| ==> s[k] == ',' || IsSpace(s[k])
  }

  /** Every segment of a blank string is all whitespace. */
  lemma {:induction false} BlankSegments(s: string)
    requires Blank(s)
    ensures forall k :: 0 <= k < |Split(s)| ==> AllSpace(Split(s)[k])
  {
    if |s| > 0 {
      assert Blank(s[1..]) by { assert forall k :: 0 <= k < |s| - 1 ==> s[1..][k] == s[k + 1]; }
      BlankSegments(s[1..]);
      var rest := Split(s[1..]);
      if s[0] != ',' {
        var first := [s[0]] + rest[0];
        assert forall k :: 1 <= k < |first| ==> first[k] == rest[0][k - 1];
      }
    }
  }

  /** All-whitespace segments clean to nothing. */
  lemma {:induction false} CleanBlankSegments(segments: seq<string>)
    requires forall k :: 0 <= k < |segments| ==> AllSpace(segments[k])
    ensures CleanSegments(segments) == []
  {
    if |segments| > 0 {
      assert forall k :: 0 <= k < |segments| - 1 ==> segments[1..][k] == segments[k + 1];
      CleanBlankSegments(segments[1..]);
    }
  }

  /** A value made of commas and whitespace, with at least one comma, passes `validate_replica_paths` yet lists no replica at all. */
  lemma BlankSegmentsPassValidation(v: string)
    requires ',' in v && Blank(v)
    ensures ValidateReplicaPaths(v).Ok?
    ensures ReplicaPathsList(v) == []
  {
    assert !IsSpace(',');
    BlankSegments(v);
    CleanBlankSegments(Split(v));
  }

  /** Shared body of the two "must not be blank" validators. */
  function ValidateNotBlank(v: string, message: string): (r: Result<string>)
    ensures r.Err? <==> AllSpace(v)
    ensures r.Err? ==> r.msg == message
    ensures r.Ok? ==> r.value != [] && r.value == Strip(v)
    ensures r.Ok? ==> !IsSpace(r.value[0]) && !IsSpace(r.value[|r.value| - 1])
  {
    if v == [] || Strip(v) == [] then Err(message) else Ok(Strip(v))
  }

  /** `Settings.validate_library_path`. */
  function ValidateLibraryPath(v: string): (r: Result<string>)
    ensures r.Err? <==> AllSpace(v)
    ensures r.Ok? ==> r.value == Strip(v) && !IsSpace(r.value[0]) && !IsSpace(r.value[|r.value| - 1])
  {
    ValidateNotBlank(v, "CALIBRE_LIBRARY_PATH cannot be empty")
  }

  /** `Settings.validate_replica_paths`. */
  function ValidateReplicaPaths(v: string): (r: Result<string>)
    ensures r.Err? <==> AllSpace(v)
    ensures r.Ok? ==> r.value == Strip(v) && !IsSpace(r.value[0]) && !IsSpace(r.value[|r.value| - 1])
  {
    ValidateNotBlank(v, "REPLICA_PATHS cannot be empty")
  }

  /** Validating an already validated value changes nothing. */
  lemma ValidatePathsIdempotent(v: string)
    ensures ValidateLibraryPath(v).Ok? ==> ValidateLibraryPath(ValidateLibraryPath(v).value) == ValidateLibraryPath(v)
    ensures ValidateReplicaPaths(v).Ok? ==> ValidateReplicaPaths(ValidateReplicaPaths(v).value) == ValidateReplicaPaths(v)
  {
    StripIdempotent(v);
  }

  const LogLevels: seq<string> := ["DEBUG", "INFO", "WARNING", "ERROR", "CRITICAL"]

  /**
   * Python's `str.upper` restricted to the characters whose upper case can be
   * an ASCII letter: `a`..`z`, dotless `ı` and long `ſ`. Every other character is
   * kept, which decides membership in `LogLevels` exactly as Python does.
   */
  function UpperChar(c: char): char {
    if 'a' <= c <= 'z' then (c as int - 32) as char
    else if c == '\U{131}' then 'I'
    else if c == '\U{17F}' then 'S'
    else c
  }

  function Upper(s: string): (r: string)
    ensures |r| == |s|
    ensures forall k :: 0 <= k < |s| ==> r[k] == UpperChar(s[k])
  {
    if |s| == 0 then [] else [UpperChar(s[0])] + Upper(s[1..])
  }

  /** The message the validator means to raise for an unknown level `v`. */
  function LogLevelMessage(v: string): (m: string)
    ensures |m| >= 9 + |v| && m[..9] == "LOG_LEVEL" && m[|m| - |v|..] == v
  {
    var name := "LOG_LEVEL";
    var m := name + " must be one of ['DEBUG', 'INFO', 'WARNING', 'ERROR', 'CRITICAL'], got " + v;
    assert m[..9] == name;
    m
  }

  /**
   * `Settings.validate_log_level` as written: an unknown level reaches
   * `ValueError(..., config_key=...)`, and since `ValueError` takes no
   * keyword arguments the call itself raises `TypeError` with this message.
   */
  function ValidateLogLevelAsWritten(v: string): (r: Result<string>)
    ensures r.Ok? <==> Upper(v) in LogLevels
    ensures r.Ok? ==> r.value == Upper(v)
    ensures r.Err? ==> r.msg == "ValueError() takes no keyword arguments"
  {
    var upper := Upper(v);
    if upper in LogLevels then Ok(upper)
    else Err("ValueError() takes no keyword arguments")
  }

  /** The failure for an unknown level names neither the setting nor the value given. */
  lemma LogLevelMessageLost(v: string)
    requires Upper(v) !in LogLevels
    ensures ValidateLogLevelAsWritten(v).Err?
    ensures ValidateLogLevelAsWritten(v).msg != LogLevelMessage(v)
  {
    var m := LogLevelMessage(v);
    assert m[0] == m[..9][0] == 'L';
    assert ValidateLogLevelAsWritten(v).msg[0] == 'V';
  }

  /** `notice` is not a level, so it reaches the failing `ValueError` call. */
  lemma NoticeIsRejected()
    ensures ValidateLogLevelAsWritten("notice").Err?
    ensures ValidateLogLevelAsWritten("notice").msg != LogLevelMessage("notice")
  {
    assert |Upper("notice")| == 6;
    LogLevelMessageLost("notice");
  }

  /**
   * `Settings.validate_log_level` as intended: the upper-cased level, or a
   * `ValueError` whose message names the setting, the accepted levels and
   * the value given.
   */
  function ValidateLogLevel(v: string): (r: Result<string>)
    ensures r.Ok? <==> Upper(v) in LogLevels
    ensures r.Ok? ==> r.value == Upper(v) && r.value in LogLevels
    ensures r.Err? ==> |r.msg| >= 9 + |v| && r.msg[..9] == "LOG_LEVEL" && r.msg[|r.msg| - |v|..] == v
  {
    var upper := Upper(v);
    if upper in LogLevels then Ok(upper)
    else Err(LogLevelMessage(v))
  }

  /** Both readings accept the same values and return the same level; they differ only in the failure raised. */
  lemma LogLevelReadingsAgree(v: string)
    ensures ValidateLogLevelAsWritten(v).Ok? <==> ValidateLogLevel(v).Ok?
    ensures ValidateLogLevel(v).Ok? ==> ValidateLogLevelAsWritten(v) == ValidateLogLevel(v)
  {
  }

  /** Any mix of upper- and lower-case letters of a level name is accepted as that level. */
  lemma LogLevelCaseInsensitive(v: string, level: string)
    requires level in LogLevels && |v| == |level|
    requires forall k :: 0 <= k < |v| ==> v[k] == level[k] || v[k] as int == level[k] as int + 32
    ensures ValidateLogLevel(v) == Ok(level)
  {
    assert forall k :: 0 <= k < |level| ==> 'A' <= level[k] <= 'Z';
    assert Upper(v) == level;
  }
}
