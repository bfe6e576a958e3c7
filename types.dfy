/** The record types of data/types.go and their validators: Author, Link and
    Icon each check their required fields, and loadLinks validates the list of
    site links, reporting the index of the first bad entry in the field path. */
module Types {
  import opened Helper
  import GoStd

  /** Author: `name` is required; the other fields are optional. */
  datatype Author = Author(name: string, url: string, email: string, avatar: string)

  /** Link, used for site links and for a post's license. */
  datatype Link = Link(icon: string, title: string, rel: string, url: string, text: string)

  /** Icon, the site icon: `url` is required; mime type and sizes are passed through. */
  datatype Icon = Icon(url: string, mimeType: string, sizes: string)

  /** Icon.sanitize: only the URL is required. */
  function SanitizeIcon(icon: Icon): (r: Option<FieldError>)
    ensures r.None? <==> icon.url != ""
    ensures r.Some? ==> r.value == FieldError("", "url", MsgEmpty)
  {
    if |icon.url| == 0 then Some(FieldError("", "url", MsgEmpty)) else None
  }

  /** Link.sanitize: the text is checked first, then the URL. */
  function SanitizeLink(link: Link): (r: Option<FieldError>)
    ensures r.None? <==> link.text != "" && link.url != ""
    ensures r.Some? ==> r.value.file == "" && r.value.message == MsgEmpty
    ensures r.Some? ==> (r.value.field == "text" <==> link.text == "")
    ensures r.Some? ==> (r.value.field == "url" <==> link.text != "" && link.url == "")
  {
    if |link.text| == 0 then Some(FieldError("", "text", MsgEmpty))
    else if |link.url| == 0 then Some(FieldError("", "url", MsgEmpty))
    else None
  }

  /** Author.sanitize: only the name is required. */
  function SanitizeAuthor(author: Author): (r: Option<FieldError>)
    ensures r.None? <==> author.name != ""
    ensures r.Some? ==> r.value == FieldError("", "name", MsgEmpty)
  {
    if |author.name| == 0 then Some(FieldError("", "name", MsgEmpty)) else None
  }

  /** The index of the first link that fails its sanitize check, if any. */
  function FirstInvalidLink(links: seq<Link>): (r: Option<nat>)
    ensures r.None? <==> forall k :: 0 <= k < |links| ==> SanitizeLink(links[k]).None?
    ensures r.Some? ==> r.value < |links| && SanitizeLink(links[r.value]).Some?
    ensures r.Some? ==> forall k :: 0 <= k < r.value ==> SanitizeLink(links[k]).None?
  {
    if links == [] then None
    else if SanitizeLink(links[0]).Some? then Some(0)
    else match FirstInvalidLink(links[1..])
      case None => None
      case Some(i) => Some(i + 1)
  }

  /** The error loadLinks reports for the bad link at `index` of `file`:
      the file is set and the field gets the prefix "[index].". */
  function IndexedError(file: string, index: nat, fe: FieldError): (e: Error)
    ensures e.Field? && e.fe.file == file && e.fe.message == fe.message
    ensures e.fe.field == "[" + GoStd.Itoa(index) + "]." + fe.field
  {
    Field(FieldError(file, "[" + GoStd.Itoa(index) + "]." + fe.field, fe.message))
  }

  /** loadLinks: `decoded` is what the YAML decoder made of the links file
      (`file`). Every link is sanitized in order; the first failure stops the
      loop and is reported with its index, otherwise the list is returned as it
      was decoded. */
  method LoadLinks(file: string, decoded: Result<seq<Link>, Error>) returns (r: Result<seq<Link>, Error>)
    ensures decoded.Err? ==> r == Err(decoded.error)
    ensures decoded.Ok? && FirstInvalidLink(decoded.value).None? ==> r == Ok(decoded.value)
    ensures decoded.Ok? && FirstInvalidLink(decoded.value).Some? ==>
      var i := FirstInvalidLink(decoded.value).value;
      r == Err(IndexedError(file, i, SanitizeLink(decoded.value[i]).value))
  {
    if decoded.Err? {
      return Err(decoded.error);
    }
    var links := decoded.value;
    var index := 0;
    while index < |links|
      invariant 0 <= index <= |links|
      invariant forall k :: 0 <= k < index ==> SanitizeLink(links[k]).None?
    {
      var err := SanitizeLink(links[index]);
      if err.Some? {
        var fe := err.value;
        fe := fe.(file := file);
        fe := fe.(field := "[" + GoStd.Itoa(index) + "]." + fe.field);
        return Err(Field(fe));
      }
      index := index + 1;
    }
    return Ok(links);
  }

  /** Links after the first bad one are never looked at: whatever follows it,
      loadLinks reports the same error. */
  lemma {:induction false} LoadLinksIgnoresRest(links: seq<Link>, rest: seq<Link>, i: nat)
    requires FirstInvalidLink(links) == Some(i)
    ensures FirstInvalidLink(links[..i + 1] + rest) == Some(i)
  {
    if i > 0 {
      assert (links[..i + 1] + rest)[1..] == links[1..][..i] + rest;
      LoadLinksIgnoresRest(links[1..], rest, i - 1);
    }
  }

  /** A shorter run of digits followed by "]" cannot spell the same field path
      as a longer run of digits. */
  lemma {:induction false} DigitMismatch(a: string, b: string, x: string, y: string)
    requires |a| < |b| && forall k :: 0 <= k < |b| ==> GoStd.IsDigit(b[k])
    ensures "[" + a + "]." + x != "[" + b + "]." + y
  {
    var s := "[" + a + "]." + x;
    var t := "[" + b + "]." + y;
    assert s[|a| + 1] == ']';
    assert t[|a| + 1] == b[|a|];
  }

  /** The field path of a loadLinks error names exactly one index: two bad
      links at different positions give different field paths. */
  lemma {:induction false} IndexedErrorDistinguishesIndexes(file: string, i: nat, j: nat, fe: FieldError, fe': FieldError)
    requires IndexedError(file, i, fe).fe.field == IndexedError(file, j, fe').fe.field
    ensures i == j
  {
    var a := GoStd.Itoa(i);
    var b := GoStd.Itoa(j);
    if |a| < |b| {
      DigitMismatch(a, b, fe.field, fe'.field);
    } else if |b| < |a| {
      DigitMismatch(b, a, fe'.field, fe.field);
    } else {
      var s := "[" + a + "]." + fe.field;
      var t := "[" + b + "]." + fe'.field;
      assert s == t;
      assert forall k :: 0 <= k < |a| ==> s[1 + k] == a[k] && t[1 + k] == b[k];
      assert a == b;
      GoStd.ItoaInjective(i, j);
    }
  }
}
