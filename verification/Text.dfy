/**
  Text helpers and the home-scope test of the SFTP client.

  A Rust `str` is modelled by its UTF-8 bytes, one `char` per byte, so that lengths
  and byte tests mean what they mean in the source.
 */
module Text {
  import opened Wrappers

  // `str::split(sep)`: always at least one part, empty parts kept.
  function Split(s: string, sep: char): (parts: seq<string>)
    ensures |parts| >= 1
  {
    if s == "" then [""]
    else
      var rest := Split(s[1..], sep);
      if s[0] == sep then [""] + rest
      else [[s[0]] + rest[0]] + rest[1..]
  }

  function Join(parts: seq<string>, sep: char): string
  {
    if parts == [] then ""
    else if |parts| == 1 then parts[0]
    else parts[0] + [sep] + Join(parts[1..], sep)
  }

  // `str::rsplit_once('/')`
  function RSplitOnce(s: string, sep: char): (r: Option<(string, string)>)
    ensures r.None? ==> sep !in s
    ensures r.Some? ==> s == r.value.0 + [sep] + r.value.1 && sep !in r.value.1
  {
    if s == "" then None
    else
      var last := |s| - 1;
      if s[last] == sep then Some((s[..last], ""))
      else
        match RSplitOnce(s[..last], sep)
        case None => None
        case Some(pair) => Some((pair.0, pair.1 + [s[last]]))
  }

  // `str::split_once(sep)`: the first separator decides.
  function SplitOnce(s: string, sep: char): (r: Option<(string, string)>)
    ensures r.None? <==> sep !in s
    ensures r.Some? ==> s == r.value.0 + [sep] + r.value.1 && sep !in r.value.0
  {
    if s == "" then None
    else if s[0] == sep then Some(("", s[1..]))
    else
      match SplitOnce(s[1..], sep)
      case None => None
      case Some(pair) => Some(([s[0]] + pair.0, pair.1))
  }

  lemma {:induction false} SplitOnceAt(left: string, sep: char, right: string)
    requires sep !in left
    ensures SplitOnce(left + [sep] + right, sep) == Some((left, right))
  {
    var s := left + [sep] + right;
    if left == "" {
      assert s[1..] == right;
    } else {
      SplitOnceAt(left[1..], sep, right);
      assert s[1..] == left[1..] + [sep] + right;
      assert [left[0]] + left[1..] == left;
    }
  }

  // Splitting and joining are inverse, in both directions.
  lemma {:induction false} JoinSplit(s: string, sep: char)
    ensures Join(Split(s, sep), sep) == s
    ensures forall part :: part in Split(s, sep) ==> sep !in part
  {
    if s != "" {
      JoinSplit(s[1..], sep);
      var rest := Split(s[1..], sep);
      if s[0] == sep {
        assert ([""] + rest)[1..] == rest;
      } else if |rest| > 1 {
        assert ([[s[0]] + rest[0]] + rest[1..])[1..] == rest[1..];
      }
    }
  }

  lemma {:induction false} SplitJoin(parts: seq<string>, sep: char)
    requires parts != []
    requires forall part :: part in parts ==> sep !in part
    ensures Split(Join(parts, sep), sep) == parts
  {
    if |parts| == 1 {
      SplitPlain(parts[0], sep);
      assert parts == [parts[0]];
    } else {
      SplitJoin(parts[1..], sep);
      SplitAtFirst(parts[0], sep, Join(parts[1..], sep));
    }
  }

  lemma {:induction false} SplitPlain(s: string, sep: char)
    requires sep !in s
    ensures Split(s, sep) == [s]
  {
    if s != "" {
      SplitPlain(s[1..], sep);
      assert [s[0]] + s[1..] == s;
    }
  }

  lemma {:induction false} SplitAtFirst(left: string, sep: char, right: string)
    requires sep !in left
    ensures Split(left + [sep] + right, sep) == [left] + Split(right, sep)
  {
    var s := left + [sep] + right;
    if left == "" {
      assert s[1..] == right;
    } else {
      SplitAtFirst(left[1..], sep, right);
      assert s[1..] == left[1..] + [sep] + right;
      assert [left[0]] + left[1..] == left;
    }
  }

  // The textual test of `resolve`: the home itself, or the home followed by a slash.
  predicate InHome(home: string, canonical: string)
  {
    || canonical == home
    || (home <= canonical && |canonical| > |home| && canonical[|home|] == '/')
  }

  lemma InHomeTail(home: string, canonical: string)
    requires home != "" && canonical != ""
    ensures InHome(home, canonical) <==> home[0] == canonical[0] && InHome(home[1..], canonical[1..])
  {
    assert home == [home[0]] + home[1..];
    assert canonical == [canonical[0]] + canonical[1..];
  }

  lemma PrefixTail(a: seq<string>, b: seq<string>)
    requires a != [] && b != []
    ensures a <= b <==> a[0] == b[0] && a[1..] <= b[1..]
  {
    assert a == [a[0]] + a[1..];
    assert b == [b[0]] + b[1..];
  }

  // Whether one list of components is a prefix of another is decided one character on.
  lemma SplitTail(home: string, canonical: string)
    requires home != "" && canonical != ""
    ensures Split(home, '/') <= Split(canonical, '/')
            <==> home[0] == canonical[0] && Split(home[1..], '/') <= Split(canonical[1..], '/')
  {
    var h, c := Split(home[1..], '/'), Split(canonical[1..], '/');
    var hs, cs := Split(home, '/'), Split(canonical, '/');
    PrefixTail(h, c);
    PrefixTail(hs, cs);
    if home[0] == '/' {
      assert hs[0] == "" && hs[1..] == h;
      assert canonical[0] == '/' ==> cs[0] == "" && cs[1..] == c;
      assert canonical[0] != '/' ==> cs[0] == [canonical[0]] + c[0];
    } else {
      assert hs[0] == [home[0]] + h[0] && hs[1..] == h[1..];
      assert canonical[0] == '/' ==> cs[0] == "";
      if canonical[0] != '/' {
        assert cs[0] == [canonical[0]] + c[0] && cs[1..] == c[1..];
        SameHead(home[0], h[0], canonical[0], c[0]);
      }
    }
  }

  lemma SameHead(x: char, a: string, y: char, b: string)
    ensures [x] + a == [y] + b <==> x == y && a == b
  {
    var s, t := [x] + a, [y] + b;
    assert s[0] == x && t[0] == y && s[1..] == a && t[1..] == b;
  }

  /**
    Home scope: the textual test accepts a path exactly when the components of the home
    are a prefix of the components of the path. A sibling such as "/home/op2" of
    "/home/op" is therefore never accepted.
   */
  lemma {:induction false} HomeScopeIsComponentPrefix(home: string, canonical: string)
    ensures InHome(home, canonical) <==> Split(home, '/') <= Split(canonical, '/')
  {
    if home != "" && canonical != "" {
      HomeScopeIsComponentPrefix(home[1..], canonical[1..]);
      InHomeTail(home, canonical);
      SplitTail(home, canonical);
    } else if home != "" {
      assert |Split(home, '/')| > 1 || Split(home, '/')[0] != "";
    } else if canonical != "" {
      assert Split(canonical, '/')[0] == "" <==> canonical[0] == '/';
    }
  }

  // A direct child of an accepted directory stays in scope, one component deeper.
  lemma ChildInHome(home: string, directory: string, name: string)
    requires InHome(home, directory) && '/' !in name
    ensures InHome(home, directory + "/" + name)
    ensures Split(directory + "/" + name, '/') == Split(directory, '/') + [name]
  {
    SplitLast(directory, name);
  }

  lemma {:induction false} SplitLast(directory: string, name: string)
    requires '/' !in name
    ensures Split(directory + "/" + name, '/') == Split(directory, '/') + [name]
  {
    if directory == "" {
      SplitPlain(name, '/');
      assert ("" + "/" + name)[1..] == name;
    } else {
      SplitLast(directory[1..], name);
      assert (directory + "/" + name)[1..] == directory[1..] + "/" + name;
    }
  }
}
