/** The string operations the scripts rely on: trimming, blankness, joining and cutting. */
module Text {

  /** White space as JavaScript's `trim` understands it. */
  predicate IsSpace(c: char)
  {
    var code := c as int;
    || 0x09 <= code <= 0x0D || code == 0x20 || code == 0xA0 || code == 0x1680
    || 0x2000 <= code <= 0x200A || code == 0x2028 || code == 0x2029 || code == 0x202F
    || code == 0x205F || code == 0x3000 || code == 0xFEFF
  }

  /** The white space characters, one by one: controls, spaces, line and paragraph ends, the byte order mark. */
  const SPACES: string :=
    "\t\n\U{000B}\U{000C}\r \U{00A0}\U{1680}\U{2028}\U{2029}\U{202F}\U{205F}\U{3000}\U{FEFF}" +
    "\U{2000}\U{2001}\U{2002}\U{2003}\U{2004}\U{2005}\U{2006}\U{2007}\U{2008}\U{2009}\U{200A}"

  lemma SpaceMeaning(c: char)
    ensures IsSpace(c) <==> c in SPACES
  {
    if IsSpace(c) {
      var code := c as int;
      if 0x09 <= code <= 0x0D {
        assert c == SPACES[code - 9];
      } else if 0x2000 <= code <= 0x200A {
        assert c == SPACES[14 + code - 0x2000];
      } else {
        assert c == SPACES[5] || c == SPACES[6] || c == SPACES[7] || c == SPACES[8] || c == SPACES[9]
               || c == SPACES[10] || c == SPACES[11] || c == SPACES[12] || c == SPACES[13];
      }
    }
  }

  predicate IsBlank(s: string)
  {
    forall c :: c in s ==> IsSpace(c)
  }

  /** The first position from i on that holds no white space. */
  function SkipSpaces(s: string, i: nat): (r: nat)
    requires i <= |s|
    ensures i <= r <= |s|
    ensures forall k :: i <= k < r ==> IsSpace(s[k])
    ensures r < |s| ==> !IsSpace(s[r])
    decreases |s| - i
  {
    if i < |s| && IsSpace(s[i]) then SkipSpaces(s, i + 1) else i
  }

  /** The end, down from i but not below lo, of what remains without trailing white space. */
  function DropSpaces(s: string, lo: nat, i: nat): (r: nat)
    requires lo <= i <= |s|
    ensures lo <= r <= i
    ensures forall k :: r <= k < i ==> IsSpace(s[k])
    ensures r > lo ==> !IsSpace(s[r - 1])
    decreases i
  {
    if i > lo && IsSpace(s[i - 1]) then DropSpaces(s, lo, i - 1) else i
  }

  function Trim(s: string): string
  {
    s[SkipSpaces(s, 0)..DropSpaces(s, SkipSpaces(s, 0), |s|)]
  }

  /** What is left is empty exactly if only white space was there, and else starts and ends with something else. */
  lemma {:induction false} TrimLeaves(s: string)
    ensures Trim(s) != "" ==> !IsSpace(Trim(s)[0]) && !IsSpace(Trim(s)[|Trim(s)| - 1])
    ensures Trim(s) == "" <==> IsBlank(s)
  {
    var lo := SkipSpaces(s, 0);
    if lo < |s| {
      assert s[lo] in s;
    } else {
      assert forall k :: 0 <= k < |s| ==> IsSpace(s[k]);
    }
  }

  /** Trimming cuts white space off both ends and nothing else, and leaves nothing exactly of a blank string. */
  lemma {:induction false} TrimMeaning(s: string) returns (before: string, after: string)
    ensures s == before + Trim(s) + after && IsBlank(before) && IsBlank(after)
    ensures Trim(s) != "" ==> !IsSpace(Trim(s)[0]) && !IsSpace(Trim(s)[|Trim(s)| - 1])
    ensures Trim(s) == "" <==> IsBlank(s)
  {
    var lo := SkipSpaces(s, 0);
    var hi := DropSpaces(s, lo, |s|);
    before, after := s[..lo], s[hi..];
    TrimLeaves(s);
    assert forall k :: 0 <= k < |after| ==> after[k] == s[hi + k];
  }

  /** `parts.join(separator)` for a one-character separator. */
  function Join(parts: seq<string>, separator: char): string
  {
    if parts == [] then ""
    else if |parts| == 1 then parts[0]
    else parts[0] + [separator] + Join(parts[1..], separator)
  }

  /** `s.split(separator)` for a one-character separator; never empty. */
  function Split(s: string, separator: char): (parts: seq<string>)
    ensures |parts| > 0
    ensures Join(parts, separator) == s
    ensures forall part :: part in parts ==> separator !in part
    decreases |s|
  {
    if s == "" then [""]
    else
      var rest := Split(s[1..], separator);
      if s[0] == separator then
        assert Join([""] + rest, separator) == [separator] + Join(rest, separator);
        [""] + rest
      else
        assert ([[s[0]] + rest[0]] + rest[1..])[1..] == rest[1..];
        [[s[0]] + rest[0]] + rest[1..]
  }

  /** Splitting is the only way to cut a string into separator-free parts. */
  lemma {:induction false} SplitJoin(parts: seq<string>, separator: char)
    requires |parts| > 0
    requires forall part :: part in parts ==> separator !in part
    ensures Split(Join(parts, separator), separator) == parts
    decreases |Join(parts, separator)|
  {
    var s := Join(parts, separator);
    assert parts[0] in parts;
    if parts[0] != "" {
      var shorter := [parts[0][1..]] + parts[1..];
      assert shorter[1..] == parts[1..];
      assert s[1..] == Join(shorter, separator);
      SplitJoin(shorter, separator);
      assert parts[0] == [s[0]] + shorter[0];
    } else if |parts| > 1 {
      assert s[1..] == Join(parts[1..], separator);
      SplitJoin(parts[1..], separator);
    }
  }

  lemma {:induction false} JoinAppend(a: seq<string>, b: seq<string>, separator: char)
    requires |a| > 0 && |b| > 0
    ensures Join(a + b, separator) == Join(a, separator) + [separator] + Join(b, separator)
  {
    assert (a + b)[1..] == a[1..] + b;
    if |a| == 1 {
      assert a[1..] + b == b;
    } else {
      JoinAppend(a[1..], b, separator);
    }
  }

  /** The parts of one string lead those of another exactly when the string, closed by a separator, does. */
  lemma {:induction false} SplitPrefix(a: string, b: string, separator: char)
    ensures Split(a, separator) < Split(b, separator) <==> a + [separator] <= b
  {
    if Split(a, separator) < Split(b, separator) {
      JoinLeads(Split(a, separator), Split(b, separator), separator);
    }
    if a + [separator] <= b {
      LeadingParts(a, b, separator);
    }
  }

  lemma JoinLeads(front: seq<string>, whole: seq<string>, separator: char)
    requires |front| > 0 && front < whole
    ensures Join(front, separator) + [separator] <= Join(whole, separator)
  {
    var rest := whole[|front|..];
    assert whole == front + rest;
    JoinAppend(front, rest, separator);
  }

  lemma LeadingParts(a: string, b: string, separator: char)
    requires a + [separator] <= b
    ensures Split(a, separator) < Split(b, separator)
  {
    var front, rest := Split(a, separator), Split(b[|a| + 1..], separator);
    assert b == a + [separator] + b[|a| + 1..];
    JoinAppend(front, rest, separator);
    SplitJoin(front + rest, separator);
  }

  predicate OccursAt(text: string, part: string, i: nat)
    requires i <= |text|
  {
    part <= text[i..]
  }

  /** `text.includes(part)`. */
  predicate Contains(text: string, part: string)
  {
    exists i :: 0 <= i <= |text| && OccursAt(text, part, i)
  }
}
