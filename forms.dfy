/** Field normalisation and image-list editing shared by the create form
    (src/components/AdminPanel.tsx) and the edit dialog
    (src/components/GestioneEspositori.tsx), which implement them identically. */
module Forms {
  import opened Wrappers
  import opened Text
  import Lists

  /** `!s.trim()`: the field is empty once trimmed. */
  predicate Blank(s: string) {
    Trim(s) == ""
  }

  /** `s.trim() || undefined`: the trimmed text, or absent when nothing is left. */
  function OptionalText(s: string): (o: Option<string>)
    ensures o.None? <==> AllWhitespace(s)
    ensures o.Some? ==> o.value == Trim(s)
    ensures o.Some? ==> o.value != "" && IsTrimmed(o.value) && |o.value| <= |s|
  {
    var t := Trim(s);
    if t == "" then None else Some(t)
  }

  /** A value that is already normalised survives a second normalisation. */
  lemma OptionalTextOfValue(v: string)
    requires v != "" && IsTrimmed(v)
    ensures OptionalText(v) == Some(v)
  {
    TrimOfTrimmed(v);
  }

  /** `xs.length > 0 ? [...xs] : undefined`. */
  function OptionalList(xs: seq<string>): (o: Option<seq<string>>)
    ensures o.None? <==> xs == []
    ensures o.Some? ==> o.value == xs
  {
    if |xs| > 0 then Some(xs) else None
  }

  /** `handleAddImage`'s new list: the trimmed URL appended at the end unless it is
      blank. */
  function AppendImage(images: seq<string>, url: string): (r: seq<string>)
    ensures Blank(url) ==> r == images
    ensures !Blank(url) ==> r == images + [Trim(url)]
    ensures !Blank(url) ==> |r| == |images| + 1 && r[..|images|] == images
    ensures !Blank(url) ==> r[|images|] != "" && IsTrimmed(r[|images|])
  {
    var t := Trim(url);
    if t != "" then images + [t] else images
  }

  /** `handleRemoveImage`'s new list. */
  function RemoveImage(images: seq<string>, index: int): (r: seq<string>)
    ensures 0 <= index < |images| ==> |r| == |images| - 1
    ensures 0 <= index < |images| ==> forall j :: 0 <= j < |r| ==> r[j] == images[if j < index then j else j + 1]
    ensures !(0 <= index < |images|) ==> r == images
  {
    Lists.DropIndex(images, index)
  }

  /** Removing the image just added, at its index, restores the list. */
  lemma RemoveUndoesAppend(images: seq<string>, url: string)
    requires !Blank(url)
    ensures RemoveImage(AppendImage(images, url), |images|) == images
  {
    var r := AppendImage(images, url);
    assert r[..|images|] == images;
  }
}
