/** The line shapes of the INI text the encoders write, and the name of the
    section that is written without a header. */
module Text {

  /** `key = value`, as `fmt.Sprintf("%s = %v\n", ...)` and
      `fmt.Fprintln(buf, key, "=", value)` both print it. */
  function KeyLine(key: string, text: string): string {
    key + " = " + text + "\n"
  }

  /** One element of a string array: `key[] = element`. */
  function ArrayLine(key: string, text: string): string {
    key + "[] = " + text + "\n"
  }

  /** A section header: `[name]`. */
  function Header(name: string): string {
    "[" + name + "]\n"
  }

  /** The variadic `defSection ...string`: its first element, or "" when none is given. */
  function DefaultSectionName(defSection: seq<string>): (r: string)
    ensures |defSection| == 0 ==> r == ""
    ensures |defSection| > 0 ==> r == defSection[0]
  {
    if |defSection| > 0 then defSection[0] else ""
  }

  /** The text of a sequence of lines, written one after another. */
  function Join(lines: seq<string>): string {
    if lines == [] then "" else Join(lines[..|lines| - 1]) + lines[|lines| - 1]
  }

  lemma {:induction false} JoinAppend(a: seq<string>, b: seq<string>)
    ensures Join(a + b) == Join(a) + Join(b)
  {
    if b != [] {
      assert (a + b)[..|a + b| - 1] == a + b[..|b| - 1];
      JoinAppend(a, b[..|b| - 1]);
    } else {
      assert a + b == a;
    }
  }

  lemma JoinOne(line: string)
    ensures Join([line]) == line
  {
    assert [line][..0] == [];
  }
}
