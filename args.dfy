/**
 * Command-line lookup (`get_arg`): a flag's value is the word right after the
 * flag's first occurrence; `--help` anywhere on the line asks for the usage text
 * instead. The argument vector is an explicit parameter rather than `sys.argv`.
 */
module Args {
  import opened Common

  const HelpFlag := "--help"

  /** What a lookup ends in: the usage text (and exit), or a value (possibly None). */
  datatype Lookup = Help | Value(value: Option<string>)

  /** Python's `list.index`: the position of the first occurrence of `name`, if any. */
  function IndexOf(argv: seq<string>, name: string): (r: Option<nat>)
    ensures r.None? <==> name !in argv
    ensures r.Some? ==> r.value < |argv| && argv[r.value] == name && name !in argv[..r.value]
  {
    if argv == [] then None
    else if argv[0] == name then Some(0)
    else
      assert argv == [argv[0]] + argv[1..];
      match IndexOf(argv[1..], name)
      case None => None
      case Some(i) =>
        assert argv[..i + 1] == [argv[0]] + argv[1..][..i];
        Some(i + 1)
  }

  /**
   * `get_arg(arg_name, default)`: help wins over everything; otherwise the word
   * after the first occurrence of `name`, or `default` when `name` is absent or
   * is the last word (the IndexError and ValueError cases).
   */
  function GetArg(argv: seq<string>, name: string, default: Option<string>): (r: Lookup)
    ensures r.Help? <==> HelpFlag in argv
    ensures HelpFlag !in argv ==>
      forall i :: 0 <= i < |argv| - 1 && argv[i] == name && name !in argv[..i] ==>
        r == Value(Some(argv[i + 1]))
    ensures HelpFlag !in argv && name !in argv ==> r == Value(default)
    ensures HelpFlag !in argv && |argv| > 0 && argv[|argv| - 1] == name && name !in argv[..|argv| - 1] ==>
      r == Value(default)
  {
    if HelpFlag in argv then Help
    else
      match IndexOf(argv, name)
      case None => Value(default)
      case Some(i) =>
        if i + 1 < |argv| then Value(Some(argv[i + 1])) else Value(default)
  }
}
