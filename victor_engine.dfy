/**
 * `Victor_Engine.script_name`: the display title of a script, built from the
 * symbol it registers under (`ve_action_reflect` gives `VE - Action Reflect`).
 */
module VictorEngine {
  import opened Ascii

  /** `gsub("_", " ")`: every underscore becomes a space. */
  function Underscores(s: string): (r: string)
    ensures |r| == |s|
    ensures forall k :: 0 <= k < |s| ==> r[k] == (if s[k] == '_' then ' ' else s[k])
  {
    seq(|s|, k requires 0 <= k < |s| => if s[k] == '_' then ' ' else s[k])
  }

  /** The end of the run of non-whitespace characters starting at `i`. */
  function WordEnd(s: string, i: nat): (j: nat)
    requires i <= |s|
    ensures i <= j <= |s|
    ensures forall k :: i <= k < j ==> !IsSpace(s[k])
    ensures j < |s| ==> IsSpace(s[j])
    decreases |s| - i
  {
    if i < |s| && !IsSpace(s[i]) then WordEnd(s, i + 1) else i
  }

  predicate IsWord(w: string) { |w| > 0 && forall k :: 0 <= k < |w| ==> !IsSpace(w[k]) }

  /** `split` with no argument: the maximal runs of non-whitespace, whitespace dropped. */
  function Words(s: string): (ws: seq<string>)
    ensures forall k :: 0 <= k < |ws| ==> IsWord(ws[k])
    decreases |s|
  {
    if s == [] then []
    else if IsSpace(s[0]) then Words(s[1..])
    else
      var n := WordEnd(s, 0);
      [s[..n]] + Words(s[n..])
  }

  /** `join(" ")`. */
  function Join(ws: seq<string>): string
    decreases |ws|
  {
    if ws == [] then "" else if |ws| == 1 then ws[0] else ws[0] + " " + Join(ws[1..])
  }

  /** `capitalize`: the first character upcased, the rest downcased. */
  function Capitalize(w: string): (r: string)
    ensures |r| == |w|
  {
    if w == [] then [] else [Upper(w[0])] + LowerString(w[1..])
  }

  /** The `collect!` block: the token equal to `ext` gets a dash after it, any other is capitalised. */
  function Title(w: string, ext: string): string
  {
    if w == ext then w + " -" else Capitalize(w)
  }

  function Titles(ws: seq<string>, ext: string): (ts: seq<string>)
    ensures |ts| == |ws|
  {
    seq(|ws|, k requires 0 <= k < |ws| => Title(ws[k], ext))
  }

  /** The upcased tokens of a script name. */
  function Tokens(name: string): seq<string>
  {
    Words(UpperString(Underscores(name)))
  }

  /** The title `script_name(name, ext)` returns. */
  function ScriptTitle(name: string, ext: string): string
  {
    Join(Titles(Tokens(name), ext))
  }

  /**
   * `script_name(name, ext)`: splits the upcased name into tokens, rewrites
   * them in place as `collect!` does and joins them with single spaces.
   */
  method ScriptName(name: string, ext: string) returns (title: string)
    ensures title == ScriptTitle(name, ext)
  {
    var words := Tokens(name);
    var a := new string[|words|](k requires 0 <= k < |words| => words[k]);
    for i := 0 to a.Length
      invariant a[..i] == Titles(words[..i], ext)
      invariant a[i..] == words[i..]
    {
      a[i] := Title(a[i], ext);
      assert a[..i + 1] == a[..i] + [a[i]];
    }
    assert a[..] == a[..a.Length];
    assert words[..|words|] == words;
    title := Join(a[..]);
  }
}
