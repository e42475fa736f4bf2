/** DirnamePosix of bridge/internal/configdir/lexical.go case by case: what every text has for a dirname. */
module PosixDirname {
  import opened PosixPaths

  predicate Slashes(t: string) {
    forall i | 0 <= i < |t| :: t[i] == '/'
  }

  /** A last name, in front of any separators at the end. */
  predicate Name(name: string) {
    name != "" && '/' !in name
  }

  lemma CutsOnlyBefore(d: string, name: string, tail: string, value: string)
    requires Name(name) && Slashes(tail) && value == d + "/" + name + tail
    ensures d != "" ==> CutAt(value, |d|)
    ensures forall m | CutAt(value, m) :: m <= |d|
    ensures value[..|d|] == d && value != "" && value[0] == if d == "" then '/' else d[0]
  {
    var n := |d| + 1;
    assert value[|d|] == '/' && value[n] == name[0];
    assert forall i | n <= i < n + |name| :: value[i] == name[i - n];
    assert forall i | n + |name| <= i < |value| :: value[i] == tail[i - n - |name|];
  }

  lemma NoCuts(name: string, tail: string, value: string)
    requires (name == "" || Name(name)) && Slashes(tail) && value == name + tail
    ensures forall m :: !CutAt(value, m)
    ensures name != "" ==> value != "" && value[0] == name[0]
    ensures name == "" ==> value == tail
  {
    assert forall i | 0 <= i < |name| :: value[i] == name[i];
    assert forall i | |name| <= i < |value| :: value[i] == tail[i - |name|];
  }

  /**
   Every text is one of these. A name with a directory in front has that directory, byte for byte, but "//" where it is
   the root; a name with only a separator in front has the root, a name alone the current directory, and so has the
   empty text; nothing but separators is its own root. Separators at the end do not count.
   */
  lemma DirnameCases(d: string, name: string, tail: string)
    requires Name(name) && Slashes(tail)
    ensures Dirname(d + "/" + name + tail) == if d == "" then "/" else if d == "/" then "//" else d
    ensures Dirname(name + tail) == "."
    ensures Dirname(tail) == if tail == "" then "." else "/"
  {
    var value := d + "/" + name + tail;
    CutsOnlyBefore(d, name, tail, value);
    var k := LastCut(value, |value| - 1);
    assert if d == "" then k == -1 else k == |d|;
    assert |d| == 1 && d[0] == '/' ==> d == "/";
    NoCuts(name, tail, name + tail);
    assert LastCut(name + tail, |name + tail| - 1) == -1;
    if tail != "" {
      NoCuts("", tail, "" + tail);
      assert "" + tail == tail && LastCut(tail, |tail| - 1) == -1 && tail[0] == '/';
    }
  }
}
