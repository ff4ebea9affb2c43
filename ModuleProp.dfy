/**
 * The text of `module.prop`: one `key=value` line per metadata entry, in the
 * order the entries were given, with no escaping. Reading the text back line
 * by line, splitting each line at its first '=', recovers the entries.
 */
module ModuleProp {
  import opened Wrappers

  /** A metadata entry, `key=value`. */
  type Entry = (string, string)

  /** `f"{k}={v}\n"` */
  function Line(e: Entry): string
  {
    e.0 + "=" + e.1 + "\n"
  }

  /** The whole file: the lines of all entries, in order. */
  function PropText(es: seq<Entry>): string
  {
    if es == [] then "" else Line(es[0]) + PropText(es[1..])
  }

  /** Appending an entry appends its line. */
  lemma {:induction false} PropTextSnoc(es: seq<Entry>, e: Entry)
    ensures PropText(es + [e]) == PropText(es) + Line(e)
  {
    if es == [] {
      assert [e][1..] == [];
    } else {
      assert (es + [e])[1..] == es[1..] + [e];
      PropTextSnoc(es[1..], e);
    }
  }

  /** `s.find(c)`, or `|s|` when `c` does not occur. */
  function IndexOf(s: string, c: char): (r: nat)
    ensures r <= |s|
    ensures r < |s| ==> s[r] == c
    ensures forall j :: 0 <= j < r ==> s[j] != c
  {
    if s == [] then 0
    else if s[0] == c then 0
    else 1 + IndexOf(s[1..], c)
  }

  /** The first `c` of `a + [c] + b` is at `|a|` when `a` holds none. */
  lemma {:induction false} IndexOfAfter(a: string, c: char, b: string)
    requires c !in a
    ensures IndexOf(a + [c] + b, c) == |a|
  {
    var s := a + [c] + b;
    assert s[|a|] == c;
    forall j | 0 <= j < |a| ensures s[j] != c {
      assert s[j] == a[j];
    }
  }

  /** Reads `module.prop` back: every line must end with a newline and hold an '='; the key is
      what precedes the first '='. */
  function ParseProps(s: string): Option<seq<Entry>>
    decreases |s|
  {
    if s == [] then Some([])
    else
      var nl := IndexOf(s, '\n');
      if nl == |s| then None
      else
        var line := s[..nl];
        var eq := IndexOf(line, '=');
        if eq == |line| then None
        else match ParseProps(s[nl + 1..])
          case None => None
          case Some(rest) => Some([(line[..eq], line[eq + 1..])] + rest)
  }

  /** Python keyword-argument names (the keys) hold neither '=' nor a newline; values hold no newline. */
  predicate Readable(es: seq<Entry>)
  {
    forall i :: 0 <= i < |es| ==> '=' !in es[i].0 && '\n' !in es[i].0 && '\n' !in es[i].1
  }

  /** The file lists exactly the entries, in insertion order. */
  lemma {:induction false} ParsePropText(es: seq<Entry>)
    requires Readable(es)
    ensures ParseProps(PropText(es)) == Some(es)
  {
    if es != [] {
      var (k, v) := es[0];
      var rest := PropText(es[1..]);
      var s := PropText(es);
      assert s == (k + "=" + v) + ['\n'] + rest;
      assert '\n' !in k + "=" + v;
      IndexOfAfter(k + "=" + v, '\n', rest);
      var line := s[..|k| + 1 + |v|];
      assert line == k + ['='] + v;
      IndexOfAfter(k, '=', v);
      assert line[..|k|] == k && line[|k| + 1..] == v;
      assert s[|k| + 1 + |v| + 1..] == rest;
      assert Readable(es[1..]) by {
        forall i | 0 <= i < |es[1..]| ensures '=' !in es[1..][i].0 && '\n' !in es[1..][i].0 && '\n' !in es[1..][i].1 {
          assert es[1..][i] == es[i + 1];
        }
      }
      ParsePropText(es[1..]);
      assert [(k, v)] + es[1..] == es;
    }
  }
}
