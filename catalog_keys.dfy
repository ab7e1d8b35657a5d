/**
 * The flexible keys of `CATALOG_NAME_MAPPING` (lower case, spaces removed)
 * are pairwise different, so the flexible lookup of the name mapper has at
 * most one match. The proof splits every key into its words and tells the
 * keys apart by the length and the first letter of their flexible form.
 *
 * There is one `KeySignatureN` and one `KeySignatureAtN` lemma per entry of
 * the table, written out by hand. A single lemma quantified over all 28
 * entries makes the solver unfold every key literal at once, and that proof
 * runs out of resource; one entry per lemma keeps each obligation small.
 */
module CatalogKeys {
  import opened Text
  import opened CatalogConfig

  lemma Words1(w0: string)
    requires NoSpace(w0)
    ensures Flex(w0) == Lowered(w0)
  {
    FlexWord(w0);
  }

  lemma Words2(w0: string, w1: string)
    requires NoSpace(w0) && NoSpace(w1)
    ensures Flex(w0 + " " + w1) == Lowered(w0) + Lowered(w1)
  {
    FlexWord(w1);
    FlexWordThen(w0, w1);
  }

  lemma Words3(w0: string, w1: string, w2: string)
    requires NoSpace(w0) && NoSpace(w1) && NoSpace(w2)
    ensures Flex(w0 + " " + (w1 + " " + w2)) == Lowered(w0) + Lowered(w1) + Lowered(w2)
  {
    Words2(w1, w2);
    FlexWordThen(w0, w1 + " " + w2);
  }

  lemma Words4(w0: string, w1: string, w2: string, w3: string)
    requires NoSpace(w0) && NoSpace(w1) && NoSpace(w2) && NoSpace(w3)
    ensures Flex(w0 + " " + (w1 + " " + (w2 + " " + w3))) == Lowered(w0) + Lowered(w1) + Lowered(w2) + Lowered(w3)
  {
    Words3(w1, w2, w3);
    FlexWordThen(w0, w1 + " " + (w2 + " " + w3));
  }

  /** Length and first character of a string. */
  function Signature(s: string): (nat, char) {
    (|s|, if s == [] then ' ' else s[0])
  }

  /** The signature of each key's flexible form, in table order. */
  const FlexSignatures: seq<(nat, char)> := [
    (23, 'a'),
    (18, 'c'),
    (17, 'c'),
    (21, 'c'),
    (23, 'c'),
    (13, 'e'),
    (30, 'e'),
    (24, 'e'),
    (12, 'g'),
    (30, 'g'),
    (24, 'h'),
    (21, 'h'),
    (23, 'h'),
    (35, 'h'),
    (15, 'i'),
    (22, 'l'),
    (28, 'p'),
    (28, 'p'),
    (12, 'q'),
    (12, 'r'),
    (22, 'r'),
    (15, 'r'),
    (20, 's'),
    (18, 's'),
    (13, 's'),
    (15, 't'),
    (17, 'f'),
    (30, 'p')
  ]

  lemma KeySignature0()
    ensures Signature(Flex(CatalogNameMapping[0].0)) == (23, 'a')
  {
    var w0, w1, w2 := "ANCLAJES", "Y", "FIJACIONES.pdf";
    assert CatalogNameMapping[0].0 == w0 + " " + (w1 + " " + w2);
    Words3(w0, w1, w2);
    LoweredHead(w0);
    assert (Lowered(w0) + Lowered(w1) + Lowered(w2))[0] == Lowered(w0)[0];
  }

  lemma KeySignatureAt0(k: nat)
    requires k == 0
    ensures k < |CatalogNameMapping|
    ensures Signature(Flex(CatalogNameMapping[k].0)) == (23, 'a')
  {
    KeySignature0();
  }

  lemma KeySignature1()
    ensures Signature(Flex(CatalogNameMapping[1].0)) == (18, 'c')
  {
    var w0, w1 := "CINTAS", "TECNICAS.pdf";
    assert CatalogNameMapping[1].0 == w0 + " " + w1;
    Words2(w0, w1);
  }

  lemma KeySignatureAt1(k: nat)
    requires k == 1
    ensures k < |CatalogNameMapping|
    ensures Signature(Flex(CatalogNameMapping[k].0)) == (18, 'c')
  {
    KeySignature1();
  }

  lemma KeySignature2()
    ensures Signature(Flex(CatalogNameMapping[2].0)) == (17, 'c')
  {
    var w0 := "CLIMATIZACION.pdf";
    assert CatalogNameMapping[2].0 == w0;
    Words1(w0);
  }

  lemma KeySignatureAt2(k: nat)
    requires k == 2
    ensures k < |CatalogNameMapping|
    ensures Signature(Flex(CatalogNameMapping[k].0)) == (17, 'c')
  {
    KeySignature2();
  }

  lemma KeySignature3()
    ensures Signature(Flex(CatalogNameMapping[3].0)) == (21, 'c')
  {
    var w0, w1, w2 := "CORTE", "Y", "PERFORACION.pdf";
    assert CatalogNameMapping[3].0 == w0 + " " + (w1 + " " + w2);
    Words3(w0, w1, w2);
  }

  lemma KeySignatureAt3(k: nat)
    requires k == 3
    ensures k < |CatalogNameMapping|
    ensures Signature(Flex(CatalogNameMapping[k].0)) == (21, 'c')
  {
    KeySignature3();
  }

  lemma KeySignature4()
    ensures Signature(Flex(CatalogNameMapping[4].0)) == (23, 'c')
  {
    var w0, w1, w2, w3 := "CORTE,", "LIJADO", "Y", "PULIDO.pdf";
    assert CatalogNameMapping[4].0 == w0 + " " + (w1 + " " + (w2 + " " + w3));
    Words4(w0, w1, w2, w3);
  }

  lemma KeySignatureAt4(k: nat)
    requires k == 4
    ensures k < |CatalogNameMapping|
    ensures Signature(Flex(CatalogNameMapping[k].0)) == (23, 'c')
  {
    KeySignature4();
  }

  lemma KeySignature5()
    ensures Signature(Flex(CatalogNameMapping[5].0)) == (13, 'e')
  {
    var w0 := "EMBALAJES.pdf";
    assert CatalogNameMapping[5].0 == w0;
    Words1(w0);
  }

  lemma KeySignatureAt5(k: nat)
    requires k == 5
    ensures k < |CatalogNameMapping|
    ensures Signature(Flex(CatalogNameMapping[k].0)) == (13, 'e')
  {
    KeySignature5();
  }

  lemma KeySignature6()
    ensures Signature(Flex(CatalogNameMapping[6].0)) == (30, 'e')
  {
    var w0, w1, w2 := "EQUIPAMIENTO", "DE", "CONSTRUCCION.pdf";
    assert CatalogNameMapping[6].0 == w0 + " " + (w1 + " " + w2);
    Words3(w0, w1, w2);
  }

  lemma KeySignatureAt6(k: nat)
    requires k == 6
    ensures k < |CatalogNameMapping|
    ensures Signature(Flex(CatalogNameMapping[k].0)) == (30, 'e')
  {
    KeySignature6();
  }

  lemma KeySignature7()
    ensures Signature(Flex(CatalogNameMapping[7].0)) == (24, 'e')
  {
    var w0, w1, w2 := "EQUIPAMIENTO", "DE", "TALLER.pdf";
    assert CatalogNameMapping[7].0 == w0 + " " + (w1 + " " + w2);
    Words3(w0, w1, w2);
  }

  lemma KeySignatureAt7(k: nat)
    requires k == 7
    ensures k < |CatalogNameMapping|
    ensures Signature(Flex(CatalogNameMapping[k].0)) == (24, 'e')
  {
    KeySignature7();
  }

  lemma KeySignature8()
    ensures Signature(Flex(CatalogNameMapping[8].0)) == (12, 'g')
  {
    var w0 := "GRIFERIA.pdf";
    assert CatalogNameMapping[8].0 == w0;
    Words1(w0);
  }

  lemma KeySignatureAt8(k: nat)
    requires k == 8
    ensures k < |CatalogNameMapping|
    ensures Signature(Flex(CatalogNameMapping[k].0)) == (12, 'g')
  {
    KeySignature8();
  }

  lemma KeySignature9()
    ensures Signature(Flex(CatalogNameMapping[9].0)) == (30, 'g')
  {
    var w0, w1, w2 := "GUIAS,", "SOPORTES,", "ABRAZADERAS.pdf";
    assert CatalogNameMapping[9].0 == w0 + " " + (w1 + " " + w2);
    Words3(w0, w1, w2);
  }

  lemma KeySignatureAt9(k: nat)
    requires k == 9
    ensures k < |CatalogNameMapping|
    ensures Signature(Flex(CatalogNameMapping[k].0)) == (30, 'g')
  {
    KeySignature9();
  }

  lemma KeySignature10()
    ensures Signature(Flex(CatalogNameMapping[10].0)) == (24, 'h')
  {
    var w0, w1 := "HERRAMIENTA", "ELECTRICA.pdf";
    assert CatalogNameMapping[10].0 == w0 + " " + w1;
    Words2(w0, w1);
  }

  lemma KeySignatureAt10(k: nat)
    requires k == 10
    ensures k < |CatalogNameMapping|
    ensures Signature(Flex(CatalogNameMapping[k].0)) == (24, 'h')
  {
    KeySignature10();
  }

  lemma KeySignature11()
    ensures Signature(Flex(CatalogNameMapping[11].0)) == (21, 'h')
  {
    var w0, w1 := "HERRAMIENTA", "MANUAL.pdf";
    assert CatalogNameMapping[11].0 == w0 + " " + w1;
    Words2(w0, w1);
  }

  lemma KeySignatureAt11(k: nat)
    requires k == 11
    ensures k < |CatalogNameMapping|
    ensures Signature(Flex(CatalogNameMapping[k].0)) == (21, 'h')
  {
    KeySignature11();
  }

  lemma KeySignature12()
    ensures Signature(Flex(CatalogNameMapping[12].0)) == (23, 'h')
  {
    var w0, w1 := "HERRAMIENTA", "MEDICION.pdf";
    assert CatalogNameMapping[12].0 == w0 + " " + w1;
    Words2(w0, w1);
  }

  lemma KeySignatureAt12(k: nat)
    requires k == 12
    ensures k < |CatalogNameMapping|
    ensures Signature(Flex(CatalogNameMapping[k].0)) == (23, 'h')
  {
    KeySignature12();
  }

  lemma KeySignature13()
    ensures Signature(Flex(CatalogNameMapping[13].0)) == (35, 'h')
  {
    var w0, w1, w2, w3 := "HERRAMIENTA", "Y", "ACCESORIOS", "NEUMATICA.pdf";
    assert CatalogNameMapping[13].0 == w0 + " " + (w1 + " " + (w2 + " " + w3));
    Words4(w0, w1, w2, w3);
  }

  lemma KeySignatureAt13(k: nat)
    requires k == 13
    ensures k < |CatalogNameMapping|
    ensures Signature(Flex(CatalogNameMapping[k].0)) == (35, 'h')
  {
    KeySignature13();
  }

  lemma KeySignature14()
    ensures Signature(Flex(CatalogNameMapping[14].0)) == (15, 'i')
  {
    var w0 := "ILUMINACION.pdf";
    assert CatalogNameMapping[14].0 == w0;
    Words1(w0);
  }

  lemma KeySignatureAt14(k: nat)
    requires k == 14
    ensures k < |CatalogNameMapping|
    ensures Signature(Flex(CatalogNameMapping[k].0)) == (15, 'i')
  {
    KeySignature14();
  }

  lemma KeySignature15()
    ensures Signature(Flex(CatalogNameMapping[15].0)) == (22, 'l')
  {
    var w0, w1 := "LIMPIEZA", "INDUSTRIAL.pdf";
    assert CatalogNameMapping[15].0 == w0 + " " + w1;
    Words2(w0, w1);
  }

  lemma KeySignatureAt15(k: nat)
    requires k == 15
    ensures k < |CatalogNameMapping|
    ensures Signature(Flex(CatalogNameMapping[k].0)) == (22, 'l')
  {
    KeySignature15();
  }

  lemma KeySignature16()
    ensures Signature(Flex(CatalogNameMapping[16].0)) == (28, 'p')
    ensures Flex(CatalogNameMapping[16].0)[15] == 'e'
  {
    var w0, w1, w2 := "PEQUEÑO", "MATERIAL", "ELECTRICO.pdf";
    assert CatalogNameMapping[16].0 == w0 + " " + (w1 + " " + w2);
    Words3(w0, w1, w2);
  }

  lemma KeySignatureAt16(k: nat)
    requires k == 16
    ensures k < |CatalogNameMapping|
    ensures Signature(Flex(CatalogNameMapping[k].0)) == (28, 'p')
    ensures Flex(CatalogNameMapping[k].0)[15] == 'e'
  {
    KeySignature16();
  }

  lemma KeySignature17()
    ensures Signature(Flex(CatalogNameMapping[17].0)) == (28, 'p')
    ensures Flex(CatalogNameMapping[17].0)[15] == 's'
  {
    var w0, w1, w2 := "PEQUEÑO", "MATERIAL", "SANITARIO.pdf";
    assert CatalogNameMapping[17].0 == w0 + " " + (w1 + " " + w2);
    Words3(w0, w1, w2);
  }

  lemma KeySignatureAt17(k: nat)
    requires k == 17
    ensures k < |CatalogNameMapping|
    ensures Signature(Flex(CatalogNameMapping[k].0)) == (28, 'p')
    ensures Flex(CatalogNameMapping[k].0)[15] == 's'
  {
    KeySignature17();
  }

  lemma KeySignature18()
    ensures Signature(Flex(CatalogNameMapping[18].0)) == (12, 'q')
  {
    var w0 := "QUIMICOS.pdf";
    assert CatalogNameMapping[18].0 == w0;
    Words1(w0);
  }

  lemma KeySignatureAt18(k: nat)
    requires k == 18
    ensures k < |CatalogNameMapping|
    ensures Signature(Flex(CatalogNameMapping[k].0)) == (12, 'q')
  {
    KeySignature18();
  }

  lemma KeySignature19()
    ensures Signature(Flex(CatalogNameMapping[19].0)) == (12, 'r')
  {
    var w0 := "REMACHES.pdf";
    assert CatalogNameMapping[19].0 == w0;
    Words1(w0);
  }

  lemma KeySignatureAt19(k: nat)
    requires k == 19
    ensures k < |CatalogNameMapping|
    ensures Signature(Flex(CatalogNameMapping[k].0)) == (12, 'r')
  {
    KeySignature19();
  }

  lemma KeySignature20()
    ensures Signature(Flex(CatalogNameMapping[20].0)) == (22, 'r')
  {
    var w0, w1, w2 := "REPARACION", "DE", "ROSCAS.pdf";
    assert CatalogNameMapping[20].0 == w0 + " " + (w1 + " " + w2);
    Words3(w0, w1, w2);
  }

  lemma KeySignatureAt20(k: nat)
    requires k == 20
    ensures k < |CatalogNameMapping|
    ensures Signature(Flex(CatalogNameMapping[k].0)) == (22, 'r')
  {
    KeySignature20();
  }

  lemma KeySignature21()
    ensures Signature(Flex(CatalogNameMapping[21].0)) == (15, 'r')
  {
    var w0, w1 := "ROPA", "LABORAL.pdf";
    assert CatalogNameMapping[21].0 == w0 + " " + w1;
    Words2(w0, w1);
  }

  lemma KeySignatureAt21(k: nat)
    requires k == 21
    ensures k < |CatalogNameMapping|
    ensures Signature(Flex(CatalogNameMapping[k].0)) == (15, 'r')
  {
    KeySignature21();
  }

  lemma KeySignature22()
    ensures Signature(Flex(CatalogNameMapping[22].0)) == (20, 's')
  {
    var w0, w1 := "SEGURIDAD", "LABORAL.pdf";
    assert CatalogNameMapping[22].0 == w0 + " " + w1;
    Words2(w0, w1);
  }

  lemma KeySignatureAt22(k: nat)
    requires k == 22
    ensures k < |CatalogNameMapping|
    ensures Signature(Flex(CatalogNameMapping[k].0)) == (20, 's')
  {
    KeySignature22();
  }

  lemma KeySignature23()
    ensures Signature(Flex(CatalogNameMapping[23].0)) == (18, 's')
  {
    var w0, w1, w2 := "SELLADO", "Y", "PEGADO.pdf";
    assert CatalogNameMapping[23].0 == w0 + " " + (w1 + " " + w2);
    Words3(w0, w1, w2);
  }

  lemma KeySignatureAt23(k: nat)
    requires k == 23
    ensures k < |CatalogNameMapping|
    ensures Signature(Flex(CatalogNameMapping[k].0)) == (18, 's')
  {
    KeySignature23();
  }

  lemma KeySignature24()
    ensures Signature(Flex(CatalogNameMapping[24].0)) == (13, 's')
  {
    var w0 := "SOLDADURA.pdf";
    assert CatalogNameMapping[24].0 == w0;
    Words1(w0);
  }

  lemma KeySignatureAt24(k: nat)
    requires k == 24
    ensures k < |CatalogNameMapping|
    ensures Signature(Flex(CatalogNameMapping[k].0)) == (13, 's')
  {
    KeySignature24();
  }

  lemma KeySignature25()
    ensures Signature(Flex(CatalogNameMapping[25].0)) == (15, 't')
  {
    var w0 := "TORNILLERIA.pdf";
    assert CatalogNameMapping[25].0 == w0;
    Words1(w0);
  }

  lemma KeySignatureAt25(k: nat)
    requires k == 25
    ensures k < |CatalogNameMapping|
    ensures Signature(Flex(CatalogNameMapping[k].0)) == (15, 't')
  {
    KeySignature25();
  }

  lemma KeySignature26()
    ensures Signature(Flex(CatalogNameMapping[26].0)) == (17, 'f')
  {
    var w0, w1 := "FIJACION", "SOLAR.pdf";
    assert CatalogNameMapping[26].0 == w0 + " " + w1;
    Words2(w0, w1);
  }

  lemma KeySignatureAt26(k: nat)
    requires k == 26
    ensures k < |CatalogNameMapping|
    ensures Signature(Flex(CatalogNameMapping[k].0)) == (17, 'f')
  {
    KeySignature26();
  }

  lemma KeySignature27()
    ensures Signature(Flex(CatalogNameMapping[27].0)) == (30, 'p')
  {
    var w0, w1, w2 := "PEQUEÑO", "MATERIAL", "CARPINTERIA.pdf";
    assert CatalogNameMapping[27].0 == w0 + " " + (w1 + " " + w2);
    Words3(w0, w1, w2);
  }

  lemma KeySignatureAt27(k: nat)
    requires k == 27
    ensures k < |CatalogNameMapping|
    ensures Signature(Flex(CatalogNameMapping[k].0)) == (30, 'p')
  {
    KeySignature27();
  }

  lemma SignaturesFrom0(k: nat)
    requires 0 <= k <= 3
    ensures k < |CatalogNameMapping| && Signature(Flex(CatalogNameMapping[k].0)) == FlexSignatures[k]
  {
    if k == 0 { KeySignatureAt0(k); }
    else if k == 1 { KeySignatureAt1(k); }
    else if k == 2 { KeySignatureAt2(k); }
    else if k == 3 { KeySignatureAt3(k); }
  }

  lemma SignaturesFrom4(k: nat)
    requires 4 <= k <= 7
    ensures k < |CatalogNameMapping| && Signature(Flex(CatalogNameMapping[k].0)) == FlexSignatures[k]
  {
    if k == 4 { KeySignatureAt4(k); }
    else if k == 5 { KeySignatureAt5(k); }
    else if k == 6 { KeySignatureAt6(k); }
    else if k == 7 { KeySignatureAt7(k); }
  }

  lemma SignaturesFrom8(k: nat)
    requires 8 <= k <= 11
    ensures k < |CatalogNameMapping| && Signature(Flex(CatalogNameMapping[k].0)) == FlexSignatures[k]
  {
    if k == 8 { KeySignatureAt8(k); }
    else if k == 9 { KeySignatureAt9(k); }
    else if k == 10 { KeySignatureAt10(k); }
    else if k == 11 { KeySignatureAt11(k); }
  }

  lemma SignaturesFrom12(k: nat)
    requires 12 <= k <= 15
    ensures k < |CatalogNameMapping| && Signature(Flex(CatalogNameMapping[k].0)) == FlexSignatures[k]
  {
    if k == 12 { KeySignatureAt12(k); }
    else if k == 13 { KeySignatureAt13(k); }
    else if k == 14 { KeySignatureAt14(k); }
    else if k == 15 { KeySignatureAt15(k); }
  }

  lemma SignaturesFrom16(k: nat)
    requires 16 <= k <= 19
    ensures k < |CatalogNameMapping| && Signature(Flex(CatalogNameMapping[k].0)) == FlexSignatures[k]
  {
    if k == 16 { KeySignatureAt16(k); }
    else if k == 17 { KeySignatureAt17(k); }
    else if k == 18 { KeySignatureAt18(k); }
    else if k == 19 { KeySignatureAt19(k); }
  }

  lemma SignaturesFrom20(k: nat)
    requires 20 <= k <= 23
    ensures k < |CatalogNameMapping| && Signature(Flex(CatalogNameMapping[k].0)) == FlexSignatures[k]
  {
    if k == 20 { KeySignatureAt20(k); }
    else if k == 21 { KeySignatureAt21(k); }
    else if k == 22 { KeySignatureAt22(k); }
    else if k == 23 { KeySignatureAt23(k); }
  }

  lemma SignaturesFrom24(k: nat)
    requires 24 <= k <= 27
    ensures k < |CatalogNameMapping| && Signature(Flex(CatalogNameMapping[k].0)) == FlexSignatures[k]
  {
    if k == 24 { KeySignatureAt24(k); }
    else if k == 25 { KeySignatureAt25(k); }
    else if k == 26 { KeySignatureAt26(k); }
    else if k == 27 { KeySignatureAt27(k); }
  }

  /** Every key's flexible form has the signature listed for it. */
  lemma SignatureAt(k: nat)
    requires k < |CatalogNameMapping|
    ensures Signature(Flex(CatalogNameMapping[k].0)) == FlexSignatures[k]
  {
    if k <= 3 { SignaturesFrom0(k); }
    else if k <= 7 { SignaturesFrom4(k); }
    else if k <= 11 { SignaturesFrom8(k); }
    else if k <= 15 { SignaturesFrom12(k); }
    else if k <= 19 { SignaturesFrom16(k); }
    else if k <= 23 { SignaturesFrom20(k); }
    else { SignaturesFrom24(k); }
  }

  /** Only entries 16 and 17 share a signature. */
  lemma SignaturesAlmostDistinct()
    ensures |FlexSignatures| == |CatalogNameMapping|
    ensures forall i, j :: 0 <= i < j < |FlexSignatures| && !(i == 16 && j == 17) ==> FlexSignatures[i] != FlexSignatures[j]
  {
  }

  /** No two keys of the table coincide once lowered and stripped of spaces. */
  lemma FlexKeysUnique()
    ensures forall i, j :: 0 <= i < j < |CatalogNameMapping| ==> Flex(CatalogNameMapping[i].0) != Flex(CatalogNameMapping[j].0)
  {
    SignaturesAlmostDistinct();
    forall i, j | 0 <= i < j < |CatalogNameMapping|
      ensures Flex(CatalogNameMapping[i].0) != Flex(CatalogNameMapping[j].0)
    {
      SignatureAt(i);
      SignatureAt(j);
      if i == 16 && j == 17 {
        KeySignature16();
        KeySignature17();
      }
    }
  }
}
