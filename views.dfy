/** The two `PaginaDadosLivro.exibe_livro` templates: `app/view/pagina_dados_livro.py` (with a
    meta charset, a stylesheet link and an `<h1>` heading) and `app/views/pagina_dados_livro.py`
    (with an `<h4>` heading). Both interpolate `str()` of the title, author and ISBN into a
    three-item list, verbatim and unescaped. */
module Views {
  import opened Py

  /** One list item, `<li> name: value </li>`. */
  function Item(name: string, value: string): (r: string)
    ensures |r| == |name| + |value| + 13
  {
    "<li> " + name + ": " + value + " </li>"
  }

  const TITULO := "T\U{ED}tulo"
  const HEADING := "Dados do Livro Pesquisado"
  const H1 := "<h1> " + HEADING + " </h1>"
  const H4 := "<h4> " + HEADING + " </h4>"
  const META := "<meta charset=\"UTF-8\">"
  const LINK := "<link rel=\"stylesheet\" href=\"/static/css/style.css\">"
  const LIST_OPEN := "<ul>"
  const LIST_CLOSE := "</ul>"
  const NL := "\n        "
  const ITEM_NL := "\n            "
  const PAGE_H1 := NL + META + NL + LINK + NL + H1 + NL
  const PAGE_H4 := NL + H4 + NL
  const LIST_END := NL + LIST_CLOSE + NL

  /** The list block shared by both templates, from `<ul>` to the end. */
  function ItemList(t: string, a: string, i: string): string
  {
    LIST_OPEN + ITEM_NL + Item(TITULO, t) + ITEM_NL + Item("Autor", a) + ITEM_NL + Item("ISBN", i)
    + LIST_END
  }

  /** `exibe_livro` of `app/view/pagina_dados_livro.py`. */
  function ExibeLivro(titulo: Scalar, autor: Scalar, isbn: Scalar): string
  {
    PAGE_H1 + ItemList(ToStr(titulo), ToStr(autor), ToStr(isbn))
  }

  /** `exibe_livro` of `app/views/pagina_dados_livro.py`; the instance plays no part. */
  function ExibeLivroH4(titulo: Scalar, autor: Scalar, isbn: Scalar): string
  {
    PAGE_H4 + ItemList(ToStr(titulo), ToStr(autor), ToStr(isbn))
  }

  // ---------------------------------------------------------------------------------------
  // Occurrences

  lemma OccursInMiddle(a: string, sub: string, b: string)
    ensures OccursAt(a + sub + b, sub, |a|)
  {
    assert (a + sub + b)[|a|..|a| + |sub|] == sub;
  }

  /** An occurrence inside `s` is one inside `p + s + q`, shifted by `|p|`. */
  lemma OccursShift(p: string, s: string, q: string, sub: string, k: nat)
    requires OccursAt(s, sub, k)
    ensures OccursAt(p + s + q, sub, |p| + k)
  {
    assert (p + s + q)[|p| + k..|p| + k + |sub|] == s[k..k + |sub|];
  }

  /** The list block holds `<ul>`, the three items in the order título, autor, ISBN, and
      `</ul>`, each after the previous one. */
  lemma {:induction false} ItemListOrder(t: string, a: string, i: string)
    ensures var l := ItemList(t, a, i);
      OccursAt(l, LIST_OPEN, 0) &&
      OccursAt(l, Item(TITULO, t), 4 + |ITEM_NL|) &&
      OccursAt(l, Item("Autor", a), 4 + 2 * |ITEM_NL| + |Item(TITULO, t)|) &&
      OccursAt(l, Item("ISBN", i), 4 + 3 * |ITEM_NL| + |Item(TITULO, t)| + |Item("Autor", a)|) &&
      OccursAt(l, LIST_CLOSE, 4 + 3 * |ITEM_NL| + |Item(TITULO, t)| + |Item("Autor", a)| +
                              |Item("ISBN", i)| + |NL|)
  {
    var it, ia, ii := Item(TITULO, t), Item("Autor", a), Item("ISBN", i);
    var l := ItemList(t, a, i);
    OccursInMiddle([], LIST_OPEN, l[4..]);
    assert l == [] + LIST_OPEN + l[4..];
    OccursInMiddle(LIST_OPEN + ITEM_NL, it, l[4 + |ITEM_NL| + |it|..]);
    assert l == LIST_OPEN + ITEM_NL + it + l[4 + |ITEM_NL| + |it|..];
    var p2 := LIST_OPEN + ITEM_NL + it + ITEM_NL;
    OccursInMiddle(p2, ia, l[|p2| + |ia|..]);
    assert l == p2 + ia + l[|p2| + |ia|..];
    var p3 := p2 + ia + ITEM_NL;
    OccursInMiddle(p3, ii, l[|p3| + |ii|..]);
    assert l == p3 + ii + l[|p3| + |ii|..];
    var p4 := p3 + ii + NL;
    OccursInMiddle(p4, LIST_CLOSE, NL);
    assert l == p4 + LIST_CLOSE + NL;
  }

  /** Where the three head elements of the `<h1>` page sit, whatever follows them. */
  lemma {:induction false} HeadOccurrences(n: string, m: string, l: string, h: string, rest: string)
    ensures var s := n + m + n + l + n + h + n + rest;
      OccursAt(s, m, |n|) && OccursAt(s, l, 2 * |n| + |m|) && OccursAt(s, h, 3 * |n| + |m| + |l|)
  {
    var s := n + m + n + l + n + h + n + rest;
    assert OccursAt(s, m, |n|) by {
      OccursInMiddle(n, m, n + l + n + h + n + rest);
      assert s == n + m + (n + l + n + h + n + rest);
    }
    assert OccursAt(s, l, 2 * |n| + |m|) by {
      OccursInMiddle(n + m + n, l, n + h + n + rest);
      assert s == (n + m + n) + l + (n + h + n + rest);
    }
    assert OccursAt(s, h, 3 * |n| + |m| + |l|) by {
      OccursInMiddle(n + m + n + l + n, h, n + rest);
      assert s == (n + m + n + l + n) + h + (n + rest);
    }
  }

  /** Where the list block of either page sits, after a head of any length. */
  lemma ListOccurrences(head: string, t: string, a: string, i: string)
    ensures var html := head + ItemList(t, a, i);
      var it, ia, ii := Item(TITULO, t), Item("Autor", a), Item("ISBN", i);
      var k0 := |head|;
      var k1 := k0 + 4 + |ITEM_NL|;
      var k2 := k1 + |ITEM_NL| + |it|;
      var k3 := k2 + |ITEM_NL| + |ia|;
      var k4 := k3 + |ii| + |NL|;
      OccursAt(html, LIST_OPEN, k0) && OccursAt(html, it, k1) && OccursAt(html, ia, k2) &&
      OccursAt(html, ii, k3) && OccursAt(html, LIST_CLOSE, k4) &&
      k0 + |LIST_OPEN| <= k1 && k1 + |it| <= k2 && k2 + |ia| <= k3 && k3 + |ii| <= k4
  {
    var l := ItemList(t, a, i);
    ItemListOrder(t, a, i);
    var it, ia, ii := Item(TITULO, t), Item("Autor", a), Item("ISBN", i);
    var k1 := 4 + |ITEM_NL|;
    var k2 := k1 + |ITEM_NL| + |it|;
    var k3 := k2 + |ITEM_NL| + |ia|;
    var k4 := k3 + |ii| + |NL|;
    OccursShift(head, l, [], LIST_OPEN, 0);
    OccursShift(head, l, [], it, k1);
    OccursShift(head, l, [], ia, k2);
    OccursShift(head, l, [], ii, k3);
    OccursShift(head, l, [], LIST_CLOSE, k4);
    assert head + l + [] == head + l;
  }

  /** The page of `app/view/pagina_dados_livro.py` declares UTF-8, links the stylesheet, has the
      `<h1>` heading, then the list with the three items in order; every value appears as its
      `str()` form. */
  lemma ExibeLivroContents(titulo: Scalar, autor: Scalar, isbn: Scalar)
    ensures var html := ExibeLivro(titulo, autor, isbn);
      var it, ia, ii := Item(TITULO, ToStr(titulo)), Item("Autor", ToStr(autor)), Item("ISBN", ToStr(isbn));
      Contains(html, META) && Contains(html, LINK) &&
      Precedes(html, META, H1) && Precedes(html, LINK, H1) &&
      Precedes(html, H1, LIST_OPEN) && Precedes(html, LIST_OPEN, it) &&
      Precedes(html, it, ia) && Precedes(html, ia, ii) && Precedes(html, ii, LIST_CLOSE)
  {
    var t, a, i := ToStr(titulo), ToStr(autor), ToStr(isbn);
    var l := ItemList(t, a, i);
    HeadOccurrences(NL, META, LINK, H1, l);
    assert PAGE_H1 + l == NL + META + NL + LINK + NL + H1 + NL + l;
    ListOccurrences(PAGE_H1, t, a, i);
  }

  /** The page of `app/views/pagina_dados_livro.py`: the `<h4>` heading, then the list with the
      three items in order. */
  lemma ExibeLivroH4Contents(titulo: Scalar, autor: Scalar, isbn: Scalar)
    ensures var html := ExibeLivroH4(titulo, autor, isbn);
      var it, ia, ii := Item(TITULO, ToStr(titulo)), Item("Autor", ToStr(autor)), Item("ISBN", ToStr(isbn));
      Precedes(html, H4, LIST_OPEN) && Precedes(html, LIST_OPEN, it) &&
      Precedes(html, it, ia) && Precedes(html, ia, ii) && Precedes(html, ii, LIST_CLOSE)
  {
    var t, a, i := ToStr(titulo), ToStr(autor), ToStr(isbn);
    var l := ItemList(t, a, i);
    OccursInMiddle(NL, H4, NL + l);
    assert PAGE_H4 + l == NL + H4 + (NL + l);
    ListOccurrences(PAGE_H4, t, a, i);
  }

  /** Empty strings leave two spaces between each name and its `</li>`. */
  lemma ExibeLivroH4Empty()
    ensures var html := ExibeLivroH4(Str(""), Str(""), Str(""));
      Contains(html, "<li> T\U{ED}tulo:  </li>") && Contains(html, "<li> Autor:  </li>") &&
      Contains(html, "<li> ISBN:  </li>")
  {
    var html := ExibeLivroH4(Str(""), Str(""), Str(""));
    assert html == PAGE_H4 + ItemList("", "", "");
    ListOccurrences(PAGE_H4, "", "", "");
    var it, ia, ii := Item(TITULO, ""), Item("Autor", ""), Item("ISBN", "");
    var k1 := |PAGE_H4| + 4 + |ITEM_NL|;
    var k2 := k1 + |ITEM_NL| + |it|;
    var k3 := k2 + |ITEM_NL| + |ia|;
    Found(html, it, k1);
    Found(html, ia, k2);
    Found(html, ii, k3);
    EmptyItems();
  }

  lemma EmptyItems()
    ensures Item(TITULO, "") == "<li> T\U{ED}tulo:  </li>"
    ensures Item("Autor", "") == "<li> Autor:  </li>"
    ensures Item("ISBN", "") == "<li> ISBN:  </li>"
  {
  }


  // ---------------------------------------------------------------------------------------
  // No escaping

  const CLOSE_LI := " </li>"

  /** `p + x + CLOSE_LI + q + r` determines `x` and `q + r` when `x` holds no `<`. */
  lemma SplitAtTag(p: string, x: string, q: string, r: string, x2: string, r2: string)
    requires '<' !in x && '<' !in x2
    requires p + x + (CLOSE_LI + q) + r == p + x2 + (CLOSE_LI + q) + r2
    ensures x == x2 && r == r2
  {
    var m := CLOSE_LI + q;
    assert m[0] == ' ' && m[1] == '<';
    FirstTag(p, x, m, r);
    FirstTag(p, x2, m, r2);
    var s := p + x + m + r;
    assert x == s[|p|..|p| + |x|] == x2;
    assert r == s[|p| + |x| + |m|..] == r2;
  }

  /** The first `<` at or after `|p|` in `p + x + m + r` is the one in `m`. */
  lemma FirstTag(p: string, x: string, m: string, r: string)
    requires '<' !in x
    requires |m| >= 2 && m[0] != '<' && m[1] == '<'
    ensures Find(p + x + m + r, '<', |p|) == |p| + |x| + 1
  {
    var s := p + x + m + r;
    forall j | |p| <= j < |p| + |x| + 1
      ensures s[j] != '<'
    {
      if j < |p| + |x| {
        assert s[j] == x[j - |p|];
        assert x[j - |p|] in x;
      } else {
        assert s[j] == m[0];
      }
    }
    assert s[|p| + |x| + 1] == m[1];
  }

  /** A page with list block, as text around the three interpolated values. */
  lemma PageShape(head: string, t: string, a: string, i: string)
    ensures head + ItemList(t, a, i) ==
            (head + LIST_OPEN + ITEM_NL + "<li> " + TITULO + ": ") + t +
            (CLOSE_LI + (ITEM_NL + "<li> Autor: ")) +
            (a + (CLOSE_LI + (ITEM_NL + "<li> ISBN: ")) + i + (CLOSE_LI + LIST_END))
  {
    ShapeOver(head, LIST_OPEN, ITEM_NL, TITULO, t, a, i, LIST_END);
  }

  lemma ShapeOver(head: string, u: string, n: string, tit: string, t: string, a: string, i: string, e: string)
    ensures head + (u + n + Item(tit, t) + n + Item("Autor", a) + n + Item("ISBN", i) + e) ==
            (head + u + n + "<li> " + tit + ": ") + t +
            (CLOSE_LI + (n + "<li> Autor: ")) + (a + (CLOSE_LI + (n + "<li> ISBN: ")) + i + (CLOSE_LI + e))
  {
  }

  /** Fields without `<` can be read back from the page: two pages are equal only when the
      three values print the same. */
  lemma ExibeLivroInjective(t: Scalar, a: Scalar, i: Scalar, t2: Scalar, a2: Scalar, i2: Scalar)
    requires '<' !in ToStr(t) && '<' !in ToStr(a) && '<' !in ToStr(i)
    requires '<' !in ToStr(t2) && '<' !in ToStr(a2) && '<' !in ToStr(i2)
    requires ExibeLivro(t, a, i) == ExibeLivro(t2, a2, i2)
    ensures ToStr(t) == ToStr(t2) && ToStr(a) == ToStr(a2) && ToStr(i) == ToStr(i2)
  {
    var head := PAGE_H1 + LIST_OPEN + ITEM_NL + "<li> " + TITULO + ": ";
    var q1, q2 := ITEM_NL + "<li> Autor: ", ITEM_NL + "<li> ISBN: ";
    var m2 := CLOSE_LI + q2;
    var m3 := CLOSE_LI + LIST_END;
    PageShape(PAGE_H1, ToStr(t), ToStr(a), ToStr(i));
    PageShape(PAGE_H1, ToStr(t2), ToStr(a2), ToStr(i2));
    SplitAtTag(head, ToStr(t), q1, ToStr(a) + m2 + ToStr(i) + m3, ToStr(t2), ToStr(a2) + m2 + ToStr(i2) + m3);
    var p := head + ToStr(t) + (CLOSE_LI + q1);
    Regroup4(p, ToStr(a), m2, ToStr(i), m3);
    Regroup4(p, ToStr(a2), m2, ToStr(i2), m3);
    SplitAtTag(p, ToStr(a), q2, ToStr(i) + m3, ToStr(a2), ToStr(i2) + m3);
    SplitAtTag(p + ToStr(a) + m2, ToStr(i), LIST_END, [], ToStr(i2), []);
  }

  lemma Regroup4(p: string, a: string, m: string, i: string, e: string)
    ensures p + (a + m + i + e) == p + a + m + (i + e)
    ensures p + (a + m + i + e) == p + a + m + i + e + []
  {
  }

  /** The text between the title value and the author value. */
  const TO_AUTOR := CLOSE_LI + (ITEM_NL + "<li> Autor: ")

  /** Without escaping the page does not determine its fields: a title that closes its item and
      opens an author item gives the same page as the shorter title with that text moved into the
      author. */
  lemma ExibeLivroNotInjective(x: string, y: string, z: string, i: Scalar)
    ensures ExibeLivro(Str(x + TO_AUTOR + y), Str(z), i) == ExibeLivro(Str(x), Str(y + TO_AUTOR + z), i)
  {
    var m2 := CLOSE_LI + (ITEM_NL + "<li> ISBN: ");
    var m3 := CLOSE_LI + LIST_END;
    var head := PAGE_H1 + LIST_OPEN + ITEM_NL + "<li> " + TITULO + ": ";
    PageShape(PAGE_H1, x + TO_AUTOR + y, z, ToStr(i));
    PageShape(PAGE_H1, x, y + TO_AUTOR + z, ToStr(i));
    Regroup(head, x, TO_AUTOR, y, z, m2 + ToStr(i) + m3);
    assert z + m2 + ToStr(i) + m3 == z + (m2 + ToStr(i) + m3);
    assert y + TO_AUTOR + z + m2 + ToStr(i) + m3 == y + TO_AUTOR + z + (m2 + ToStr(i) + m3);
  }

  lemma Regroup(h: string, x: string, m: string, y: string, z: string, r: string)
    ensures h + (x + m + y) + m + (z + r) == h + x + m + (y + m + z + r)
  {
  }
}
