/** storage/backend/ceph/ceph.go: volume names `policy/volume` and rbd image names
    `policy.volume`. */
module ImageNames {
  import opened Wrappers
  import opened Strings

  function ExternalName(s: string): string {
    Join(Cut(s, '.'), '/')
  }

  function InternalName(s: string): Result<string> {
    var strs := Cut(s, '/');
    if |strs| != 2 then Err
    else if '.' in strs[0] then Err
    else if '/' in strs[1] then Err
    else Ok(Join(strs, '.'))
  }

  /** A name is accepted exactly when it has one slash and no dot before it; its image name
      then has no slash, at least one dot, and determines it. */
  lemma InternalThenExternal(s: string)
    ensures InternalName(s).Ok? <==>
              exists p, v :: s == p + "/" + v && '/' !in p && '/' !in v && '.' !in p
    ensures InternalName(s).Ok? ==>
              var image := InternalName(s).value;
              ExternalName(image) == s && '/' !in image && '.' in image
  {
    if InternalName(s).Ok? {
      var strs := Cut(s, '/');
      JoinTwo(strs, '/');
      JoinTwo(strs, '.');
      assert s == strs[0] + "/" + strs[1];
      CutUnique(strs[0], strs[1], '.');
      assert strs == [strs[0], strs[1]];
      assert Join(strs, '.')[|strs[0]|] == '.';
    }
    forall p, v | s == p + "/" + v && '/' !in p && '/' !in v && '.' !in p
      ensures InternalName(s).Ok?
    {
      CutUnique(p, v, '/');
    }
  }

  /** Distinct accepted volume names never share an image. */
  lemma ImagesAreDistinct(a: string, b: string)
    requires InternalName(a).Ok? && InternalName(a) == InternalName(b)
    ensures a == b
  {
    InternalThenExternal(a);
    InternalThenExternal(b);
  }

  /** The image names that are some volume's are exactly those with a dot and no slash. */
  lemma ExternalThenInternal(image: string)
    ensures InternalName(ExternalName(image)) == Ok(image) <==> '/' !in image && '.' in image
  {
    var strs := Cut(image, '.');
    if |strs| == 2 {
      JoinTwo(strs, '.');
      JoinTwo(strs, '/');
      assert strs == [strs[0], strs[1]];
      if '/' !in image {
        CutUnique(strs[0], strs[1], '/');
      }
    }
    if InternalName(ExternalName(image)) == Ok(image) {
      InternalThenExternal(ExternalName(image));
    }
  }
}
