/**
 * The voltage field of the form: `[float(x) for x in text.split(",") if x.strip()]`.
 * The text is split at every comma, fields that are empty or whitespace only
 * are dropped, and each remaining field is parsed as a number; a field that
 * does not parse rejects the whole input.
 */
module VoltageInput {
  import opened Wrappers

  /** Python's str.isspace for one character: the characters str.strip removes. */
  predicate IsSpace(c: char)
  {
    var n := c as int;
    || n == 0x20 || (0x09 <= n <= 0x0D) || (0x1C <= n <= 0x1F)
    || n == 0x85 || n == 0xA0 || n == 0x1680 || (0x2000 <= n <= 0x200A)
    || n == 0x2028 || n == 0x2029 || n == 0x202F || n == 0x205F || n == 0x3000
  }

  /** `x.strip()` is the empty string. */
  predicate IsBlank(s: string)
  {
    forall k :: 0 <= k < |s| ==> IsSpace(s[k])
  }

  /** Python's `s.split(sep)` for a one-character separator. */
  function Split(s: string, sep: char): (parts: seq<string>)
    ensures |parts| >= 1
    ensures forall k :: 0 <= k < |parts| ==> sep !in parts[k]
  {
    if s == [] then [""]
    else
      var rest := Split(s[1..], sep);
      if s[0] == sep then [""] + rest
      else [[s[0]] + rest[0]] + rest[1..]
  }

  /** Python's `sep.join(parts)`. */
  function Join(parts: seq<string>, sep: char): string
    requires |parts| >= 1
  {
    if |parts| == 1 then parts[0] else parts[0] + [sep] + Join(parts[1..], sep)
  }

  /** Joining the pieces again gives back the original text. */
  lemma {:induction false} JoinSplit(s: string, sep: char)
    ensures Join(Split(s, sep), sep) == s
  {
    if s != [] {
      JoinSplit(s[1..], sep);
      var rest := Split(s[1..], sep);
      if s[0] != sep {
        if |rest| == 1 {
          assert Split(s, sep) == [[s[0]] + rest[0]];
        } else {
          assert Split(s, sep)[1..] == rest[1..];
          assert Join(rest, sep) == rest[0] + [sep] + Join(rest[1..], sep);
        }
      }
    }
  }

  /** Splitting a join of separator-free pieces gives back the pieces. */
  lemma {:induction false} SplitJoin(parts: seq<string>, sep: char)
    requires |parts| >= 1
    requires forall k :: 0 <= k < |parts| ==> sep !in parts[k]
    ensures Split(Join(parts, sep), sep) == parts
  {
    if |parts| == 1 {
      SplitNoSeparator(parts[0], sep);
    } else {
      SplitJoin(parts[1..], sep);
      SplitAfterSeparator(parts[0], sep, Join(parts[1..], sep));
      assert parts == [parts[0]] + parts[1..];
    }
  }

  lemma {:induction false} SplitNoSeparator(s: string, sep: char)
    requires sep !in s
    ensures Split(s, sep) == [s]
  {
    if s != [] {
      SplitNoSeparator(s[1..], sep);
      assert [s[0]] + s[1..] == s;
    }
  }

  lemma {:induction false} SplitAfterSeparator(p: string, sep: char, t: string)
    requires sep !in p
    ensures Split(p + [sep] + t, sep) == [p] + Split(t, sep)
  {
    if p == [] {
      assert p + [sep] + t == [sep] + t;
      assert ([sep] + t)[1..] == t;
    } else {
      SplitAfterSeparator(p[1..], sep, t);
      assert (p + [sep] + t)[1..] == p[1..] + [sep] + t;
      assert [p[0]] + p[1..] == p;
    }
  }

  /** The fields the comprehension keeps: those that are not blank, in order. */
  function NonBlank(fields: seq<string>): (kept: seq<string>)
    ensures forall k :: 0 <= k < |kept| ==> !IsBlank(kept[k]) && kept[k] in fields
    ensures forall k :: 0 <= k < |fields| && !IsBlank(fields[k]) ==> fields[k] in kept
  {
    if fields == [] then []
    else
      var rest := NonBlank(fields[1..]);
      assert forall k :: 1 <= k < |fields| ==> fields[k] == fields[1..][k - 1];
      if IsBlank(fields[0]) then rest else [fields[0]] + rest
  }

  /** A single field is kept exactly when it is not blank. */
  lemma NonBlankSingle(x: string)
    ensures NonBlank([x]) == if IsBlank(x) then [] else [x]
  {
  }

  /**
   * Filtering a concatenation is concatenating the filtered parts: with
   * NonBlankSingle this fixes the order and the multiplicity of the kept fields.
   */
  lemma {:induction false} NonBlankAppend(a: seq<string>, b: seq<string>)
    ensures NonBlank(a + b) == NonBlank(a) + NonBlank(b)
  {
    if a == [] {
      assert a + b == b;
    } else {
      NonBlankAppend(a[1..], b);
      assert (a + b)[1..] == a[1..] + b;
    }
  }

  /**
   * Parse every field with `parse` (Python's float); the first field that
   * does not parse makes the whole list fail, as the comprehension raises.
   */
  function ParseAll(fields: seq<string>, parse: string -> Option<real>): (r: Option<seq<real>>)
    ensures r.Some? <==> forall k :: 0 <= k < |fields| ==> parse(fields[k]).Some?
    ensures r.Some? ==>
      && |r.value| == |fields|
      && forall k :: 0 <= k < |fields| ==> r.value[k] == parse(fields[k]).value
  {
    if fields == [] then Some([])
    else
      var rest := ParseAll(fields[1..], parse);
      assert forall k :: 1 <= k < |fields| ==> fields[k] == fields[1..][k - 1];
      match parse(fields[0])
      case None => None
      case Some(v) => if rest.None? then None else Some([v] + rest.value)
  }

  /** The voltage list run_scan builds from the text field, or None for "Invalid voltage input". */
  function ParseVoltages(text: string, parse: string -> Option<real>): Option<seq<real>>
  {
    ParseAll(NonBlank(Split(text, ',')), parse)
  }

  /** An empty or blank field yields an empty voltage list, whatever `parse` does. */
  lemma BlankTextHasNoVoltages(text: string, parse: string -> Option<real>)
    requires IsBlank(text)
    ensures ParseVoltages(text, parse) == Some([])
  {
    SplitNoSeparator(text, ',');
  }

  /** Each comma-free, non-blank field becomes one voltage, in order. */
  lemma ParseVoltagesFields(fields: seq<string>, parse: string -> Option<real>)
    requires |fields| >= 1
    requires forall k :: 0 <= k < |fields| ==> ',' !in fields[k] && !IsBlank(fields[k])
    requires forall k :: 0 <= k < |fields| ==> parse(fields[k]).Some?
    ensures var r := ParseVoltages(Join(fields, ','), parse);
      r.Some? && |r.value| == |fields| && forall k :: 0 <= k < |fields| ==> r.value[k] == parse(fields[k]).value
  {
    SplitJoin(fields, ',');
    NonBlankKeepsAll(fields);
  }

  lemma {:induction false} NonBlankKeepsAll(fields: seq<string>)
    requires forall k :: 0 <= k < |fields| ==> !IsBlank(fields[k])
    ensures NonBlank(fields) == fields
  {
    if fields != [] {
      NonBlankKeepsAll(fields[1..]);
    }
  }

  /** "120, ,60" gives the voltages 120 and 60, in that order: the blank field is dropped. */
  lemma SkippedBlankFieldExample(parse: string -> Option<real>)
    requires parse("120") == Some(120.0) && parse("60") == Some(60.0)
    ensures ParseVoltages("120, ,60", parse) == Some([120.0, 60.0])
  {
    var fields := ["120", " ", "60"];
    JoinExample();
    SplitJoin(fields, ',');
    NonBlankExample();
    var kept := ["120", "60"];
    assert kept[0] == "120" && kept[1] == "60";
    var r := ParseAll(kept, parse);
    assert r.value == [120.0, 60.0];
  }

  lemma JoinExample()
    ensures Join(["120", " ", "60"], ',') == "120, ,60"
    ensures forall k :: 0 <= k < 3 ==> ',' !in ["120", " ", "60"][k]
  {
    assert Join(["60"], ',') == "60";
    assert Join([" ", "60"], ',') == " ,60";
  }

  lemma NonBlankExample()
    ensures NonBlank(["120", " ", "60"]) == ["120", "60"]
  {
    assert !IsBlank("120") by { assert !IsSpace("120"[0]); }
    assert !IsBlank("60") by { assert !IsSpace("60"[0]); }
    assert IsBlank(" ");
    assert NonBlank(["60"]) == ["60"];
    assert NonBlank([" ", "60"]) == ["60"] by { assert [" ", "60"][1..] == ["60"]; }
    assert ["120", " ", "60"][1..] == [" ", "60"];
  }
}
