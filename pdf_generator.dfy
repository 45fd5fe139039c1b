/** `generatePDF` of src/utils/pdfGenerator.ts. The jsPDF document is modelled as the
    list of draw commands it receives (fonts, sizes and colours are not modelled); the
    word wrapper `splitTextToSize` and the date formatter are inputs. The generator
    moves a vertical cursor down the page; `Layout` states in closed form where every
    command lands, and `GeneratePdf` is proved to draw exactly that. */
module PdfGenerator {
  import opened Wrappers
  import opened Types

  datatype Align = Left | Center

  datatype DrawCmd =
    | Text(text: string, x: int, y: int, align: Align)
    | TextLines(lines: seq<string>, x: int, y: int)
    | Rule(x1: int, y1: int, x2: int, y2: int)

  /** The vertical position of a command. */
  function YOf(c: DrawCmd): int {
    match c
    case Text(_, _, y, _) => y
    case TextLines(_, _, y) => y
    case Rule(_, y1, _, _) => y1
  }

  /** The jsPDF document: the commands drawn so far, in order. */
  class Document {
    var commands: seq<DrawCmd>

    constructor ()
      ensures commands == []
    {
      commands := [];
    }

    /** `doc.text(text, x, y, { align })`. */
    method DrawText(text: string, x: int, y: int, align: Align)
      modifies this
      ensures commands == old(commands) + [Text(text, x, y, align)]
    {
      commands := commands + [Text(text, x, y, align)];
    }

    /** `doc.text(lines, x, y)` with an array of lines. */
    method DrawLines(lines: seq<string>, x: int, y: int)
      modifies this
      ensures commands == old(commands) + [TextLines(lines, x, y)]
    {
      commands := commands + [TextLines(lines, x, y)];
    }

    /** `doc.line(x1, y1, x2, y2)`. */
    method DrawRule(x1: int, y1: int, x2: int, y2: int)
      modifies this
      ensures commands == old(commands) + [Rule(x1, y1, x2, y2)]
    {
      commands := commands + [Rule(x1, y1, x2, y2)];
    }
  }

  /** JavaScript truthiness of an optional text field: present and not empty. */
  predicate Present(o: Option<string>) {
    o.Some? && o.value != ""
  }

  const LineHeight := 7
  const DescriptionY := 55
  const FooterY := 280

  /** Where "Contact Information" is drawn, below `lineCount` wrapped description
      lines. */
  function ContactY(lineCount: nat): int {
    DescriptionY + LineHeight * lineCount
  }

  /** The optional contact lines, in the order they are drawn. */
  function ContactLines(e: Espositore): (r: seq<string>)
    ensures |r| == (if Present(e.website) then 1 else 0) + (if Present(e.phoneNumber) then 1 else 0)
      + (if Present(e.fairLocation) then 1 else 0)
    ensures Present(e.website) ==> r[0] == "Website: " + e.website.value
    ensures Present(e.phoneNumber) ==> r[if Present(e.website) then 1 else 0] == "Phone: " + e.phoneNumber.value
    ensures Present(e.fairLocation) ==> r[|r| - 1] == "Fair Location: " + e.fairLocation.value
  {
    (if Present(e.website) then ["Website: " + e.website.value] else [])
    + (if Present(e.phoneNumber) then ["Phone: " + e.phoneNumber.value] else [])
    + (if Present(e.fairLocation) then ["Fair Location: " + e.fairLocation.value] else [])
  }

  /** Left-aligned lines one line height apart, the first at `top`. */
  function Stacked(lines: seq<string>, top: int): (cs: seq<DrawCmd>)
    ensures |cs| == |lines|
    ensures forall k :: 0 <= k < |lines| ==> cs[k] == Text(lines[k], 20, top + LineHeight * k, Left)
  {
    seq(|lines|, k requires 0 <= k < |lines| => Text(lines[k], 20, top + LineHeight * k, Left))
  }

  /** Where "Gallery" is drawn. */
  function GalleryY(e: Espositore, lineCount: nat): (y: int)
    ensures ContactY(lineCount) + 10 + LineHeight * |ContactLines(e)| <= y
    ensures Present(e.category) ==> ContactY(lineCount) + 10 + LineHeight * |ContactLines(e)| < y
  {
    ContactY(lineCount) + 10 + LineHeight * |ContactLines(e)| + (if Present(e.category) then 15 else 0)
  }

  /** The fixed header, the description and the contact heading. */
  function Heading(e: Espositore, descriptionLines: seq<string>): (h: seq<DrawCmd>)
    ensures |h| == 6 && NonDecreasing(h)
    ensures forall i :: 0 <= i < |h| ==> YOf(h[i]) <= ContactY(|descriptionLines|)
  {
    [ Text("Sposi Oggi Exhibitor", 105, 20, Center),
      Text(e.name, 105, 30, Center),
      Rule(20, 35, 190, 35),
      Text("Description:", 20, 45, Left),
      TextLines(descriptionLines, 20, DescriptionY),
      Text("Contact Information", 20, ContactY(|descriptionLines|), Left) ]
  }

  /** Every command down to "Gallery", in drawing order. */
  function Body(e: Espositore, descriptionLines: seq<string>): seq<DrawCmd> {
    var n := |descriptionLines|;
    var contacts := ContactLines(e);
    Heading(e, descriptionLines)
    + Stacked(contacts, ContactY(n) + 10)
    + (if Present(e.category) then [Text("Category: " + e.category.value, 20, ContactY(n) + 10 + LineHeight * |contacts|, Left)] else [])
    + [Text("Gallery", 20, GalleryY(e, n), Left)]
  }

  /** The whole page: the body, then the footer with the formatted date. */
  function Layout(e: Espositore, descriptionLines: seq<string>, today: string): seq<DrawCmd> {
    Body(e, descriptionLines) + [Text("Generated on " + today, 105, FooterY, Center)]
  }

  /** `generatePDF`, returning the drawn document (the data-URL encoding is not
      modelled). */
  method GeneratePdf(e: Espositore, descriptionLines: seq<string>, today: string) returns (doc: Document)
    ensures fresh(doc)
    ensures doc.commands == Layout(e, descriptionLines, today)
  {
    doc := new Document();
    var yPosition := DrawHeading(doc, e, descriptionLines);
    yPosition := DrawContacts(doc, e, yPosition);
    if Present(e.category) {
      doc.DrawText("Category: " + e.category.value, 20, yPosition, Left);
      yPosition := yPosition + 15;
    }
    doc.DrawText("Gallery", 20, yPosition, Left);
    yPosition := yPosition + 10;
    assert doc.commands == Body(e, descriptionLines);
    doc.DrawText("Generated on " + today, 105, 280, Center);
  }

  /** The fixed part of `generatePDF`, down to the contact heading; the cursor starts
      one line height per wrapped description line below the description and moves
      past the heading. */
  method DrawHeading(doc: Document, e: Espositore, descriptionLines: seq<string>) returns (yPosition: int)
    modifies doc
    ensures doc.commands == old(doc.commands) + Heading(e, descriptionLines)
    ensures yPosition == ContactY(|descriptionLines|) + 10
  {
    doc.DrawText("Sposi Oggi Exhibitor", 105, 20, Center);
    doc.DrawText(e.name, 105, 30, Center);
    doc.DrawRule(20, 35, 190, 35);
    doc.DrawText("Description:", 20, 45, Left);
    doc.DrawLines(descriptionLines, 20, 55);
    yPosition := 55 + |descriptionLines| * 7;
    doc.DrawText("Contact Information", 20, yPosition, Left);
    yPosition := yPosition + 10;
  }

  /** The three optional contact lines of `generatePDF`, each drawn only when its
      field is present and each moving the cursor down one line. */
  method DrawContacts(doc: Document, e: Espositore, y: int) returns (yPosition: int)
    modifies doc
    ensures doc.commands == old(doc.commands) + Stacked(ContactLines(e), y)
    ensures yPosition == y + LineHeight * |ContactLines(e)|
  {
    yPosition := y;
    ghost var drawn: seq<string> := [];
    if Present(e.website) {
      doc.DrawText("Website: " + e.website.value, 20, yPosition, Left);
      StackedSnoc(drawn, "Website: " + e.website.value, y);
      drawn := drawn + ["Website: " + e.website.value];
      yPosition := yPosition + 7;
    }
    assert doc.commands == old(doc.commands) + Stacked(drawn, y) && yPosition == y + LineHeight * |drawn|;
    if Present(e.phoneNumber) {
      doc.DrawText("Phone: " + e.phoneNumber.value, 20, yPosition, Left);
      StackedSnoc(drawn, "Phone: " + e.phoneNumber.value, y);
      drawn := drawn + ["Phone: " + e.phoneNumber.value];
      yPosition := yPosition + 7;
    }
    assert doc.commands == old(doc.commands) + Stacked(drawn, y) && yPosition == y + LineHeight * |drawn|;
    if Present(e.fairLocation) {
      doc.DrawText("Fair Location: " + e.fairLocation.value, 20, yPosition, Left);
      StackedSnoc(drawn, "Fair Location: " + e.fairLocation.value, y);
      drawn := drawn + ["Fair Location: " + e.fairLocation.value];
      yPosition := yPosition + 7;
    }
    assert drawn == ContactLines(e);
  }

  /** Drawing one more line below a stack extends the stack. */
  lemma StackedSnoc(lines: seq<string>, line: string, top: int)
    ensures Stacked(lines + [line], top) == Stacked(lines, top) + [Text(line, 20, top + LineHeight * |lines|, Left)]
  {
    var l := Stacked(lines + [line], top);
    var r := Stacked(lines, top) + [Text(line, 20, top + LineHeight * |lines|, Left)];
    assert |l| == |r|;
    forall k | 0 <= k < |l|
      ensures l[k] == r[k]
    {
      if k < |lines| {
        assert (lines + [line])[k] == lines[k];
      }
    }
  }

  /** The vertical positions never go up along the list. */
  ghost predicate NonDecreasing(cs: seq<DrawCmd>) {
    forall i, j :: 0 <= i < j < |cs| ==> YOf(cs[i]) <= YOf(cs[j])
  }

  lemma NonDecreasingConcat(a: seq<DrawCmd>, b: seq<DrawCmd>, mid: int)
    requires NonDecreasing(a) && NonDecreasing(b)
    requires forall i :: 0 <= i < |a| ==> YOf(a[i]) <= mid
    requires forall j :: 0 <= j < |b| ==> mid <= YOf(b[j])
    ensures NonDecreasing(a + b)
  {
    forall i, j | 0 <= i < j < |a + b|
      ensures YOf((a + b)[i]) <= YOf((a + b)[j])
    {
      if j < |a| {
        assert (a + b)[i] == a[i] && (a + b)[j] == a[j];
      } else if i >= |a| {
        assert (a + b)[i] == b[i - |a|] && (a + b)[j] == b[j - |a|];
      } else {
        assert (a + b)[i] == a[i] && (a + b)[j] == b[j - |a|];
      }
    }
  }

  /** The cursor only moves down: every command above the footer is drawn at or below
      the ones before it, and none lies below "Gallery". */
  lemma {:induction false} BodyNonDecreasing(e: Espositore, descriptionLines: seq<string>)
    ensures NonDecreasing(Body(e, descriptionLines))
    ensures forall i :: 0 <= i < |Body(e, descriptionLines)| ==>
      YOf(Body(e, descriptionLines)[i]) <= GalleryY(e, |descriptionLines|)
  {
    var n := |descriptionLines|;
    var contacts := ContactLines(e);
    var top := ContactY(n) + 10;
    var header := Heading(e, descriptionLines);
    var stack := Stacked(contacts, top);
    var category := if Present(e.category) then [Text("Category: " + e.category.value, 20, top + LineHeight * |contacts|, Left)] else [];
    var gallery := [Text("Gallery", 20, GalleryY(e, n), Left)];
    StackedBounds(contacts, top);
    NonDecreasingChain(header, stack, category, gallery, ContactY(n), top + LineHeight * |contacts|, GalleryY(e, n));
    assert Body(e, descriptionLines) == header + stack + category + gallery;
  }

  /** Four runs, each non-decreasing and lying in its own band of heights, make a
      non-decreasing whole that lies above the last band's height. */
  lemma NonDecreasingChain(a: seq<DrawCmd>, b: seq<DrawCmd>, c: seq<DrawCmd>, d: seq<DrawCmd>, m1: int, m2: int, m3: int)
    requires m1 <= m2 <= m3
    requires NonDecreasing(a) && NonDecreasing(b) && NonDecreasing(c) && NonDecreasing(d)
    requires forall i :: 0 <= i < |a| ==> YOf(a[i]) <= m1
    requires forall i :: 0 <= i < |b| ==> m1 <= YOf(b[i]) <= m2
    requires forall i :: 0 <= i < |c| ==> m2 <= YOf(c[i]) <= m3
    requires forall i :: 0 <= i < |d| ==> YOf(d[i]) == m3
    ensures NonDecreasing(a + b + c + d)
    ensures forall i :: 0 <= i < |a + b + c + d| ==> YOf((a + b + c + d)[i]) <= m3
  {
    NonDecreasingConcat(a, b, m1);
    var ab := a + b;
    assert forall i :: 0 <= i < |ab| ==> YOf(ab[i]) <= m2 by {
      forall i | 0 <= i < |ab|
        ensures YOf(ab[i]) <= m2
      {
        if i < |a| {
          assert ab[i] == a[i];
        } else {
          assert ab[i] == b[i - |a|];
        }
      }
    }
    NonDecreasingConcat(ab, c, m2);
    var abc := ab + c;
    assert forall i :: 0 <= i < |abc| ==> YOf(abc[i]) <= m3 by {
      forall i | 0 <= i < |abc|
        ensures YOf(abc[i]) <= m3
      {
        if i < |ab| {
          assert abc[i] == ab[i];
        } else {
          assert abc[i] == c[i - |ab|];
        }
      }
    }
    NonDecreasingConcat(abc, d, m3);
    var all := abc + d;
    forall i | 0 <= i < |all|
      ensures YOf(all[i]) <= m3
    {
      if i < |abc| {
        assert all[i] == abc[i];
      } else {
        assert all[i] == d[i - |abc|];
      }
    }
  }

  /** A stack of lines goes down the page from its top, one line height at a time. */
  lemma StackedBounds(lines: seq<string>, top: int)
    ensures NonDecreasing(Stacked(lines, top))
    ensures forall k :: 0 <= k < |lines| ==> top <= YOf(Stacked(lines, top)[k]) <= top + LineHeight * |lines|
  {
    var cs := Stacked(lines, top);
    forall i, j | 0 <= i < j < |cs|
      ensures YOf(cs[i]) <= YOf(cs[j])
    {
    }
  }

  /** The footer is the last command and sits at the fixed height whatever the
      content; everything else is drawn in cursor order. */
  lemma LayoutShape(e: Espositore, descriptionLines: seq<string>, today: string)
    ensures var l := Layout(e, descriptionLines, today);
      && |l| == 8 + |ContactLines(e)| + (if Present(e.category) then 1 else 0)
      && l[|l| - 1] == Text("Generated on " + today, 105, FooterY, Center)
      && l[|l| - 2] == Text("Gallery", 20, GalleryY(e, |descriptionLines|), Left)
      && NonDecreasing(l[..|l| - 1])
  {
    var l := Layout(e, descriptionLines, today);
    assert l[..|l| - 1] == Body(e, descriptionLines);
    BodyNonDecreasing(e, descriptionLines);
  }

  /** Each optional contact line is drawn exactly when its field is present, so a
      record without them goes straight from the contact heading to "Gallery". */
  lemma BareRecordLayout(e: Espositore, descriptionLines: seq<string>)
    requires !Present(e.website) && !Present(e.phoneNumber) && !Present(e.fairLocation) && !Present(e.category)
    ensures |Body(e, descriptionLines)| == 7
    ensures GalleryY(e, |descriptionLines|) == ContactY(|descriptionLines|) + 10
  {
    assert ContactLines(e) == [];
  }
}
