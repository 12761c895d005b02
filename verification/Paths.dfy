/** Path components, and what stripping `/src` behind the build directory does to them. */
module Paths {
  import opened Text
  import opened SourceFiles

  /** `path.split('/')`. */
  function Components(path: string): (r: seq<string>)
    ensures r != []
  {
    if path == "" then [""]
    else
      var rest := Components(path[1..]);
      if path[0] == '/' then [""] + rest else [[path[0]] + rest[0]] + rest[1..]
  }

  lemma ComponentsCons(c: char, t: string)
    ensures Components([c] + t) ==
            if c == '/' then [""] + Components(t) else [[c] + Components(t)[0]] + Components(t)[1..]
  {
    assert ([c] + t)[1..] == t;
  }

  lemma ComponentsNone()
    ensures Components("") == [""]
  {
  }

  /** The last component of the first path and the first of the second are one. */
  lemma {:induction false} ComponentsConcat(a: string, b: string)
    ensures Components(a + b) == Glue(Components(a), Components(b))
  {
    hide Components, Glue;
    if a == "" {
      assert a + b == b;
      ComponentsNone();
      GlueOne("", Components(b));
      assert "" + Components(b)[0] == Components(b)[0];
      assert [Components(b)[0]] + Components(b)[1..] == Components(b);
    } else {
      var t := a[1..];
      assert a == [a[0]] + t && a + b == [a[0]] + (t + b);
      ComponentsCons(a[0], t);
      ComponentsCons(a[0], t + b);
      ComponentsConcat(t, b);
      GlueBehind("", Components(t), Components(b));
      GlueExtended(a[0], Components(t), Components(b));
    }
  }

  /** Below the `src` directory itself, as opposed to a sibling whose name begins with `src`. */
  predicate BelowSrc(tail: string) {
    tail == "" || tail[0] == '/'
  }

  lemma FirstComponentEmpty(tail: string)
    ensures Components(tail)[0] == "" <==> BelowSrc(tail)
  {
  }

  lemma SrcAlone()
    ensures Components("/src") == ["", "src"]
  {
    hide Components;
    ComponentsNone();
    ComponentsCons('c', "");
    ComponentsCons('r', "c");
    ComponentsCons('s', "rc");
    ComponentsCons('/', "src");
    assert ['c'] + "" == "c" && ['r'] + "c" == "rc" && ['s'] + "rc" == "src" && ['/'] + "src" == "/src";
  }

  lemma SrcComponents(build: string, tail: string)
    ensures var b, t := Components(build), Components(tail);
            Components(build + "/src" + tail) == b + (["src" + t[0]] + t[1..])
  {
    hide Components, Glue;
    SrcAlone();
    ComponentsConcat(build, "/src");
    GlueEmpty(Components(build), "src");
    ComponentsConcat(build + "/src", tail);
    GlueLast(Components(build), "src", Components(tail));
  }

  lemma GlueEmpty(b: seq<string>, x: string)
    requires b != []
    ensures Glue(b, ["", x]) == b + [x]
  {
    assert b[|b| - 1] + "" == b[|b| - 1];
    assert b[..|b| - 1] + [b[|b| - 1]] == b;
  }

  lemma GlueLast(b: seq<string>, x: string, t: seq<string>)
    requires t != []
    ensures Glue(b + [x], t) == b + ([x + t[0]] + t[1..])
  {
    assert (b + [x])[..|b|] == b;
  }

  /** The rewriting drops exactly the component `src` if and only if the path goes below it; a sibling
      such as `src_gen` becomes a sibling of the build directory instead. */
  lemma DropsSrcComponentIff(build: string, tail: string)
    ensures var all, n := Components(build + "/src" + tail), |Components(build)|;
            n < |all| && (Components(build + tail) == all[..n] + all[n + 1..] <==> BelowSrc(tail))
  {
    hide Components;
    var b, t := Components(build), Components(tail);
    SrcComponents(build, tail);
    ComponentsConcat(build, tail);
    FirstComponentEmpty(tail);
    var all, moved := Components(build + "/src" + tail), Components(build + tail);
    assert all[..|b|] == b && all[|b| + 1..] == t[1..];
    assert moved[|b| - 1] == b[|b| - 1] + t[0] && (b + t[1..])[|b| - 1] == b[|b| - 1];
    if t[0] == "" {
      assert b[|b| - 1] + t[0] == b[|b| - 1];
      assert b[..|b| - 1] + [b[|b| - 1]] == b;
    } else {
      assert |b[|b| - 1] + t[0]| > |b[|b| - 1]|;
    }
  }

  lemma ComponentsUnder(a: string, b: string)
    ensures Components(a + "/" + b) == Components(a) + Components(b)
  {
    hide Components;
    var x, y := Components(a), Components(b);
    assert a + "/" + b == a + (['/'] + b);
    ComponentsCons('/', b);
    ComponentsConcat(a, ['/'] + b);
    assert x[|x| - 1] + "" == x[|x| - 1] && x[..|x| - 1] + [x[|x| - 1]] == x;
    assert ([""] + y)[1..] == y;
  }

  /** The same for the whole rewriting of a word, where a path below the current directory is then given
      relative to it. */
  lemma RelocateDropsSrcIff(d: Dirs, tail: string)
    ensures var all, n := Components(d.build + "/src" + tail), |Components(d.build)|;
            var moved := Components(Relocate(d, d.build + "/src" + tail));
            var local := StartsWith(d.build + tail, d.current + "/");
            && n < |all|
            && ((if local then Components(d.current) + moved else moved) == all[..n] + all[n + 1..] <==> BelowSrc(tail))
  {
    hide Components, Relocate;
    BuildOutputsMove(d, tail);
    DropsSrcComponentIff(d.build, tail);
    var path := d.build + tail;
    if StartsWith(path, d.current + "/") {
      var local := path[|d.current| + 1..];
      assert path == d.current + "/" + local;
      ComponentsUnder(d.current, local);
    }
  }
}
