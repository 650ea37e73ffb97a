/** CSI volume identifiers: the full ZFS name, split into pool, parent and leaf. */
module VolumeId {
  import opened Prelude

  datatype Id = Id(full: string, pool: string, parent: string, leaf: string)

  datatype IdError = EmptyId | TooShort | EmptySegment

  /** strings.Split on "/". */
  function Split(s: string): (r: seq<string>)
    ensures |r| >= 1
  {
    if s == "" then [""]
    else
      var rest := Split(s[1..]);
      if s[0] == '/' then [""] + rest else [[s[0]] + rest[0]] + rest[1..]
  }

  /** strings.Join with "/". */
  function Join(parts: seq<string>): (r: string)
    requires |parts| >= 1
  {
    if |parts| == 1 then parts[0] else parts[0] + "/" + Join(parts[1..])
  }

  function Encode(parent: string, leaf: string): (r: string) {
    if parent == "" then leaf else parent + "/" + leaf
  }

  function Parse(id: string): (r: Result<Id, IdError>) {
    if id == "" then Err(EmptyId)
    else
      var parts := Split(id);
      if |parts| < 2 then Err(TooShort)
      else if "" in parts then Err(EmptySegment)
      else Ok(Id(id, parts[0], Join(parts[..|parts| - 1]), parts[|parts| - 1]))
  }

  function ZvolDevicePath(id: Id): (r: string) {
    "/dev/zvol/" + id.full
  }

  // ----- splitting and joining -----

  lemma {:induction false} JoinSplit(s: string)
    ensures Join(Split(s)) == s
  {
    if s != "" {
      JoinSplit(s[1..]);
      var rest := Split(s[1..]);
      assert s == [s[0]] + s[1..];
      if s[0] == '/' {
        assert Split(s)[1..] == rest;
      } else if |rest| > 1 {
        assert Split(s)[1..] == rest[1..];
        assert [s[0]] + rest[0] + "/" + Join(rest[1..]) == [s[0]] + (rest[0] + "/" + Join(rest[1..]));
      }
    }
  }

  lemma {:induction false} SplitSlashFree(s: string, i: int)
    requires 0 <= i < |Split(s)|
    ensures '/' !in Split(s)[i]
  {
    if s != "" {
      var rest := Split(s[1..]);
      if s[0] == '/' {
        if i > 0 {
          SplitSlashFree(s[1..], i - 1);
        }
      } else {
        SplitSlashFree(s[1..], i);
      }
    }
  }

  lemma {:induction false} SplitLast(a: string, b: string)
    requires '/' !in b
    ensures Split(a + "/" + b) == Split(a) + [b]
  {
    var s := a + "/" + b;
    if a == "" {
      SplitWhole(b);
      assert s[1..] == b;
    } else {
      assert s[1..] == a[1..] + "/" + b && s[0] == a[0];
      SplitLast(a[1..], b);
    }
  }

  lemma {:induction false} SplitWhole(b: string)
    requires '/' !in b
    ensures Split(b) == [b]
  {
    if b != "" {
      SplitWhole(b[1..]);
      assert b == [b[0]] + b[1..];
    }
  }

  lemma {:induction false} JoinLast(parts: seq<string>, leaf: string)
    requires |parts| >= 1
    ensures Join(parts + [leaf]) == Join(parts) + "/" + leaf
    ensures parts[0] != "" ==> Join(parts) != ""
  {
    if |parts| > 1 {
      assert (parts + [leaf])[1..] == parts[1..] + [leaf];
      JoinLast(parts[1..], leaf);
    }
  }

  // ----- round trips -----

  /** A dataset path all of whose segments are non-empty. */
  predicate GoodPath(p: string) {
    "" !in Split(p)
  }

  /** Two slashes in a row. */
  ghost predicate DoubleSlash(s: string) {
    exists i :: 0 <= i < |s| - 1 && s[i] == '/' && s[i + 1] == '/'
  }

  /** A segment after the first is empty exactly at a final slash or between two in a row. */
  lemma {:induction false} LaterEmptyExactly(s: string)
    ensures "" in Split(s)[1..] <==> s != "" && (s[|s| - 1] == '/' || DoubleSlash(s))
    ensures Split(s)[0] == "" <==> s == "" || s[0] == '/'
    ensures |Split(s)| >= 2 <==> '/' in s
  {
    if s != "" {
      var rest := s[1..];
      LaterEmptyExactly(rest);
      assert s == [s[0]] + rest;
      DoubleSlashStep(s);
      assert s[0] == '/' ==> Split(s)[1..] == Split(rest) == [Split(rest)[0]] + Split(rest)[1..];
      assert s[0] != '/' ==> Split(s)[1..] == Split(rest)[1..];
    }
  }

  lemma DoubleSlashStep(s: string)
    requires s != ""
    ensures DoubleSlash(s) <==> DoubleSlash(s[1..]) || (|s| >= 2 && s[0] == '/' && s[1] == '/')
  {
    if i :| 0 <= i < |s[1..]| - 1 && s[1..][i] == '/' && s[1..][i + 1] == '/' {
      assert s[i + 1] == '/' && s[i + 1 + 1] == '/';
    }
    if i :| 0 < i < |s| - 1 && s[i] == '/' && s[i + 1] == '/' {
      assert s[1..][i - 1] == '/' && s[1..][i - 1 + 1] == '/';
    }
  }

  /** Why an id is refused, read off the text. */
  lemma ParseRefusesExactly(id: string)
    ensures Parse(id) == Err(EmptyId) <==> id == ""
    ensures Parse(id) == Err(TooShort) <==> id != "" && '/' !in id
    ensures Parse(id) == Err(EmptySegment) <==> '/' in id && (id[0] == '/' || id[|id| - 1] == '/' || DoubleSlash(id))
  {
    LaterEmptyExactly(id);
    assert Split(id) == [Split(id)[0]] + Split(id)[1..];
  }

  /** Parsing undoes encoding if and only if the parent is a good path and the leaf is one
      non-empty segment; without a parent the leaf is all there is. */
  lemma ParseEncodeExactly(parent: string, leaf: string)
    ensures (Parse(Encode(parent, leaf)).Ok? &&
             Parse(Encode(parent, leaf)).value.parent == parent && Parse(Encode(parent, leaf)).value.leaf == leaf)
       <==> GoodPath(parent) && leaf != "" && '/' !in leaf
    ensures parent == "" ==> Parse(Encode(parent, leaf)) == Parse(leaf)
  {
    var full := Encode(parent, leaf);
    if GoodPath(parent) && leaf != "" && '/' !in leaf {
      SplitLast(parent, leaf);
      JoinSplit(parent);
      assert Split(full)[..|Split(full)| - 1] == Split(parent);
      assert "" !in Split(parent) + [leaf];
    }
    if Parse(full).Ok? && Parse(full).value.parent == parent && Parse(full).value.leaf == leaf {
      EncodeParse(full);
      SplitLast(parent, leaf);
    }
  }

  /** Encoding undoes parsing, and the parts are what their names say. */
  lemma EncodeParse(id: string)
    requires Parse(id).Ok?
    ensures var v := Parse(id).value;
            && v.parent != "" && Encode(v.parent, v.leaf) == id == v.full
            && '/' !in v.pool && v.pool != "" && '/' !in v.leaf && v.leaf != ""
            && v.pool + "/" <= id
  {
    var parts := Split(id);
    var init, leaf := parts[..|parts| - 1], parts[|parts| - 1];
    JoinSplit(id);
    SplitSlashFree(id, 0);
    SplitSlashFree(id, |parts| - 1);
    assert parts == init + [leaf];
    assert init[0] == parts[0] && parts[0] in parts && leaf in parts;
    JoinLast(init, leaf);
    JoinHead(parts);
  }

  lemma JoinHead(parts: seq<string>)
    requires |parts| >= 2
    ensures parts[0] + "/" <= Join(parts)
  {
  }

  /** Device paths tell volumes apart. */
  lemma DevicePathsApart(a: Id, b: Id)
    requires a.full != b.full
    ensures ZvolDevicePath(a) != ZvolDevicePath(b)
  {
    assert ZvolDevicePath(a)[10..] == a.full && ZvolDevicePath(b)[10..] == b.full;
  }
}
