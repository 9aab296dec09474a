// MQTT topic strings: JavaScript's `split('/')` and its inverse, the
// topic templates of `subscribeToTopics` and `publishCommand`
// (src/platform.ts), and the facts that tie parsing to building.

const SLASH: char := '/'

/** `String.prototype.split` with a one-character separator: never empty, keeps empty segments. */
function Split(s: string, sep: char): (parts: seq<string>)
  ensures |parts| >= 1
  ensures forall i :: 0 <= i < |parts| ==> sep !in parts[i]
  decreases |s|
{
  if |s| == 0 then [""]
  else
    var rest := Split(s[1..], sep);
    if s[0] == sep then [""] + rest
    else [[s[0]] + rest[0]] + rest[1..]
}

/** `Array.prototype.join`: the segments with the separator between them. */
function Join(parts: seq<string>, sep: char): string
  requires |parts| >= 1
{
  if |parts| == 1 then parts[0] else parts[0] + [sep] + Join(parts[1..], sep)
}

/** An empty first segment joins to a leading separator. */
lemma JoinLeadingEmpty(rest: seq<string>, sep: char)
  requires |rest| >= 1
  ensures Join([""] + rest, sep) == [sep] + Join(rest, sep)
{
  assert ([""] + rest)[1..] == rest;
}

/** A character put in front of the first segment is put in front of the join. */
lemma JoinConsHead(c: char, parts: seq<string>, sep: char)
  requires |parts| >= 1
  ensures Join([[c] + parts[0]] + parts[1..], sep) == [c] + Join(parts, sep)
{
  var longer := [[c] + parts[0]] + parts[1..];
  if |parts| > 1 {
    assert longer[1..] == parts[1..];
  }
}

/** Joining the segments of a split gives back the text. */
lemma {:induction false} JoinSplit(s: string, sep: char)
  ensures Join(Split(s, sep), sep) == s
  decreases |s|
{
  if |s| > 0 {
    var rest := Split(s[1..], sep);
    JoinSplit(s[1..], sep);
    if s[0] == sep {
      JoinLeadingEmpty(rest, sep);
    } else {
      JoinConsHead(s[0], rest, sep);
    }
    assert s == [s[0]] + s[1..];
  }
}

/** A segment free of the separator splits into itself, whatever follows it. */
lemma {:induction false} SplitSegment(w: string, rest: string, sep: char)
  requires sep !in w
  ensures Split(w + rest, sep) == [w + Split(rest, sep)[0]] + Split(rest, sep)[1..]
  decreases |w|
{
  if w == [] {
    var r := Split(rest, sep);
    assert w + rest == rest;
    assert w + r[0] == r[0];
    assert r == [r[0]] + r[1..];
  } else {
    var tail, r := w[1..], Split(rest, sep);
    SplitSegment(tail, rest, sep);
    var t := Split(tail + rest, sep);
    assert t[0] == tail + r[0] && t[1..] == r[1..];
    assert (w + rest)[0] == w[0] != sep;
    assert (w + rest)[1..] == tail + rest;
    assert Split(w + rest, sep) == [[w[0]] + t[0]] + t[1..];
    assert [w[0]] + (tail + r[0]) == w + r[0];
  }
}

/** A leading separator splits off an empty first segment. */
lemma SplitLeadingSeparator(rest: string, sep: char)
  ensures Split([sep] + rest, sep) == [""] + Split(rest, sep)
{
  assert ([sep] + rest)[1..] == rest;
}

/** A separator-free segment, a separator and a text split into the segment followed by the text's segments. */
lemma SplitAfterSegment(w: string, rest: string, sep: char)
  requires sep !in w
  ensures Split(w + [sep] + rest, sep) == [w] + Split(rest, sep)
{
  var t := Split([sep] + rest, sep);
  SplitLeadingSeparator(rest, sep);
  SplitSegment(w, [sep] + rest, sep);
  assert w + [sep] + rest == w + ([sep] + rest);
  assert w + t[0] == w;
}

/** Splitting a join gives back the segments, when no segment holds the separator. */
lemma {:induction false} SplitJoin(parts: seq<string>, sep: char)
  requires |parts| >= 1
  requires forall i :: 0 <= i < |parts| ==> sep !in parts[i]
  ensures Split(Join(parts, sep), sep) == parts
  decreases |parts|
{
  if |parts| == 1 {
    SplitSegment(parts[0], "", sep);
    assert parts[0] + "" == parts[0];
  } else {
    SplitJoin(parts[1..], sep);
    SplitAfterSegment(parts[0], Join(parts[1..], sep), sep);
    assert parts == [parts[0]] + parts[1..];
  }
}

/** A topic built from segments with `/` between them, as the source's template strings build it. */
function Topic(segments: seq<string>): string
  requires |segments| >= 1
{
  Join(segments, SLASH)
}

/** The segments of a topic built from slash-free segments are those segments. */
lemma TopicSegments(segments: seq<string>)
  requires |segments| >= 1
  requires forall i :: 0 <= i < |segments| ==> SLASH !in segments[i]
  ensures Split(Topic(segments), SLASH) == segments
{
  SplitJoin(segments, SLASH);
}
