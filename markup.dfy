/**
 * The parts of the portal's HTML that the client looks at, as already-parsed
 * values: the login form's inputs, and the data page as its text plus the
 * document-order stream of heading (`h3`, `b`, `strong`) and `table` elements.
 * All cell and heading strings are taken as already trimmed
 * (`get_text(strip=True)`).
 */
module Markup {
  import opened Wrappers

  /** One `<input>`: its `name` attribute if present, its `type` and `value` (absent = ""). */
  datatype Input = Input(name: Option<string>, kind: string, value: string)

  /** The first `<form>` of the login page: its `action` attribute if present, and its inputs. */
  datatype Form = Form(action: Option<string>, inputs: seq<Input>)

  /**
   * A `<table>`: its whole text, the texts of its `th` cells, and for every
   * `tr` the texts of its `td` cells (empty for a header-only row).
   */
  datatype Table = Table(text: string, headers: seq<string>, rows: seq<seq<string>>)

  datatype Element = Heading(text: string) | TableElement(table: Table)

  /** The data page: its visible text and its element stream. */
  datatype Page = Page(text: string, elements: seq<Element>)

  /** The tables of an element stream, in document order (`soup.find_all("table")`). */
  function Tables(elements: seq<Element>): (r: seq<Table>)
    ensures |r| <= |elements|
    ensures forall t :: t in r <==> TableElement(t) in elements
  {
    if |elements| == 0 then []
    else
      var init := Tables(elements[..|elements| - 1]);
      assert elements == elements[..|elements| - 1] + [elements[|elements| - 1]];
      match elements[|elements| - 1]
      case TableElement(t) => init + [t]
      case Heading(_) => init
  }

  /** Table extraction keeps document order and multiplicity: it distributes over concatenation. */
  lemma {:induction false} TablesAppend(a: seq<Element>, b: seq<Element>)
    ensures Tables(a + b) == Tables(a) + Tables(b)
  {
    if |b| == 0 {
      assert a + b == a;
    } else {
      var init := b[..|b| - 1];
      assert (a + b)[..|a + b| - 1] == a + init;
      assert (a + b)[|a + b| - 1] == b[|b| - 1];
      TablesAppend(a, init);
    }
  }
}
