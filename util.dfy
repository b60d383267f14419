/**
 * State copy helpers of the simulator: turning a byte array into a string,
 * and the shallow, one-level copy of a table used to save and load the
 * simulator's state.
 */
module SimUtil {
  import opened JsValues

  /**
   * The text one array element contributes: the character with that code
   * for 0..255; any other value looks up nothing in the 256-entry table and
   * appends the text "undefined".
   */
  function CharPiece(b: int): (r: string)
    ensures 0 <= b < 256 ==> r == [b as char]
    ensures !(0 <= b < 256) ==> r == "undefined"
  {
    if 0 <= b < 256 then [b as char] else "undefined"
  }

  /** The pieces of all elements, in order. */
  function CharsOf(data: seq<int>): string
  {
    if data == [] then "" else CharsOf(data[..|data| - 1]) + CharPiece(data[|data| - 1])
  }

  /** For byte data the string has one character per byte, with that byte as its code. */
  lemma {:induction false} CharsOfBytes(data: seq<int>)
    requires forall i :: 0 <= i < |data| ==> 0 <= data[i] < 256
    ensures |CharsOf(data)| == |data|
    ensures forall i :: 0 <= i < |data| ==> CharsOf(data)[i] as int == data[i]
  {
    if data != [] {
      CharsOfBytes(data[..|data| - 1]);
    }
  }

  /**
   * byteArrayToString: null gives the empty string; otherwise the pieces
   * of the elements are appended one by one.
   */
  method ByteArrayToString(data: Option<seq<int>>) returns (str: string)
    ensures data.None? ==> str == ""
    ensures data.Some? ==> str == CharsOf(data.value)
    ensures data.Some? && (forall i :: 0 <= i < |data.value| ==> 0 <= data.value[i] < 256) ==>
              |str| == |data.value| && forall i :: 0 <= i < |str| ==> str[i] as int == data.value[i]
  {
    str := "";
    if data.Some? {
      var d := data.value;
      var i := 0;
      while i < |d|
        invariant 0 <= i <= |d|
        invariant str == CharsOf(d[..i])
      {
        assert d[..i + 1][..i] == d[..i];
        str := str + CharPiece(d[i]);
        i := i + 1;
      }
      assert d[..i] == d;
      if forall i :: 0 <= i < |d| ==> 0 <= d[i] < 256 {
        CharsOfBytes(d);
      }
    }
  }

  /**
   * safeExtend(deep, dest, src): copies every entry of src into dest,
   * primitives as they are and arrays through slice(), skipping functions
   * and objects without slice; returns dest. The deep flag is ignored by
   * the source and left out here.
   */
  method SafeExtend(dest: JsObject, src: JsObject) returns (r: JsObject)
    modifies dest
    ensures r == dest
    ensures forall k :: k in dest.props <==>
              k in old(dest.props) || (k in old(src.props) && !(old(src.props)[k].Func? || old(src.props)[k].Obj?))
    ensures forall k :: k in old(dest.props) && (k !in old(src.props) || old(src.props)[k].Func? || old(src.props)[k].Obj?) ==>
              dest.props[k] == old(dest.props)[k]
    ensures forall k :: k in old(src.props) && IsPrimitive(old(src.props)[k]) ==>
              dest.props[k] == old(src.props)[k]
    ensures forall k :: k in old(src.props) && IsArrayLike(old(src.props)[k]) ==>
              fresh(Refs(dest.props[k])) && SnapOf(dest.props[k]) == SnapOf(old(src.props)[k])
  {
    var srcProps := src.props;
    var todo := srcProps.Keys;
    while todo != {}
      invariant todo <= srcProps.Keys
      invariant forall k :: k in dest.props <==>
                  k in old(dest.props) || (k in srcProps && k !in todo && !(srcProps[k].Func? || srcProps[k].Obj?))
      invariant forall k :: k in old(dest.props) && (k !in srcProps || k in todo || srcProps[k].Func? || srcProps[k].Obj?) ==>
                  dest.props[k] == old(dest.props)[k]
      invariant forall k :: k in srcProps && k !in todo && IsPrimitive(srcProps[k]) ==>
                  dest.props[k] == srcProps[k]
      invariant forall k :: k in srcProps && k !in todo && IsArrayLike(srcProps[k]) ==>
                  fresh(Refs(dest.props[k])) && SnapOf(dest.props[k]) == SnapOf(srcProps[k])
      decreases todo
    {
      var key :| key in todo;
      CopyEntry(dest, key, srcProps[key]);
      todo := todo - {key};
    }
    r := dest;
  }

  /**
   * The save/load round trip: src extended into a fresh table, which is then
   * extended into dst. Every primitive of src arrives in dst as it is, and
   * every array as a fresh copy with the same contents.
   */
  method SaveThenLoad(src: JsObject, dst: JsObject)
    modifies dst
    ensures forall k :: k in old(src.props) && !(old(src.props)[k].Func? || old(src.props)[k].Obj?) ==> k in dst.props
    ensures forall k :: k in old(src.props) && IsPrimitive(old(src.props)[k]) ==> dst.props[k] == old(src.props)[k]
    ensures forall k :: k in old(src.props) && IsArrayLike(old(src.props)[k]) ==>
              fresh(Refs(dst.props[k])) && SnapOf(dst.props[k]) == SnapOf(old(src.props)[k])
  {
    var saved := new JsObject();
    var copy := SafeExtend(saved, src);
    var loaded := SafeExtend(dst, saved);
  }

  /** One step of safeExtend: the entry for one key. */
  method CopyEntry(dest: JsObject, key: string, val: Value)
    modifies dest
    ensures val.Func? || val.Obj? ==> dest.props == old(dest.props)
    ensures !(val.Func? || val.Obj?) ==> key in dest.props && dest.props == old(dest.props)[key := dest.props[key]]
    ensures IsPrimitive(val) ==> dest.props[key] == val
    ensures IsArrayLike(val) ==> fresh(Refs(dest.props[key])) && SnapOf(dest.props[key]) == SnapOf(val)
  {
    match val {
      case Func(_) =>
      case Obj(_) =>
      case Typed(kind, buf) =>
        var copy := new int[buf.Length](i requires 0 <= i < buf.Length reads buf => buf[i]);
        assert copy[..] == buf[..];
        dest.props := dest.props[key := Typed(kind, copy)];
      case List(list) =>
        var copy := new JsList(list.items);
        dest.props := dest.props[key := List(copy)];
      case _ =>
        dest.props := dest.props[key := val];
    }
  }
}
