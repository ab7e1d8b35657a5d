/**
 * `config.py`: the catalog name table and the check of the FTP credentials.
 * Loading the environment is not modelled; the three FTP settings are inputs.
 */
module CatalogConfig {
  import opened Wrappers
  import opened Text

  /** `CATALOG_NAME_MAPPING`, in the dictionary's insertion order. */
  const CatalogNameMapping: seq<(string, string)> := [
    ("ANCLAJES Y FIJACIONES.pdf", "ANCLAJES_FIJACIONES.pdf"),
    ("CINTAS TECNICAS.pdf", "CINTAS_TECNICAS.pdf"),
    ("CLIMATIZACION.pdf", "CLIMATIZACION.pdf"),
    ("CORTE Y PERFORACION.pdf", "CORTE_PERFORACION.pdf"),
    ("CORTE, LIJADO Y PULIDO.pdf", "CORTE_LIJADO_PULIDO.pdf"),
    ("EMBALAJES.pdf", "EMBALAJES.pdf"),
    ("EQUIPAMIENTO DE CONSTRUCCION.pdf", "EQUIPAMIENTO_CONSTRUCCION.pdf"),
    ("EQUIPAMIENTO DE TALLER.pdf", "EQUIPAMIENTO_TALLER.pdf"),
    ("GRIFERIA.pdf", "GRIFERIA.pdf"),
    ("GUIAS, SOPORTES, ABRAZADERAS.pdf", "GUIAS_SOPORTES_ABRAZDERAS.pdf"),
    ("HERRAMIENTA ELECTRICA.pdf", "HERRAMIENTA_ELECTRICA.pdf"),
    ("HERRAMIENTA MANUAL.pdf", "HERRAMIENTA_MANUAL.pdf"),
    ("HERRAMIENTA MEDICION.pdf", "HERRAMIENTA_MEDICION.pdf"),
    ("HERRAMIENTA Y ACCESORIOS NEUMATICA.pdf", "HERRAMIENTA_ACCESORIOS_NEUMATICA.pdf"),
    ("ILUMINACION.pdf", "ILUMINACION.pdf"),
    ("LIMPIEZA INDUSTRIAL.pdf", "LIMPIEZA_INDUSTRIAL.pdf"),
    ("PEQUEÑO MATERIAL ELECTRICO.pdf", "PEQUENIO_MATERIAL_ELECTRICO.pdf"),
    ("PEQUEÑO MATERIAL SANITARIO.pdf", "PEQUENIO_MATERIAL_SANITARIO.pdf"),
    ("QUIMICOS.pdf", "QUIMICOS.pdf"),
    ("REMACHES.pdf", "REMACHES.pdf"),
    ("REPARACION DE ROSCAS.pdf", "REPARACION_ROSCAS.pdf"),
    ("ROPA LABORAL.pdf", "ROPA_LABORAL.pdf"),
    ("SEGURIDAD LABORAL.pdf", "SEGURIDAD_LABORAL.pdf"),
    ("SELLADO Y PEGADO.pdf", "SELLADO_PEGADO.pdf"),
    ("SOLDADURA.pdf", "SOLDADURA.pdf"),
    ("TORNILLERIA.pdf", "TORNILLERIA.pdf"),
    ("FIJACION SOLAR.pdf", "FIJACION_SOLAR.pdf"),
    ("PEQUEÑO MATERIAL CARPINTERIA.pdf", "PEQUENIO_MATERIAL_CARPINTERIA.pdf")
  ]

  /** Positions of the entries that map a name to itself. */
  const IdentityEntries: set<nat> := {2, 5, 8, 14, 18, 19, 24, 25}

  /** Each key appears once: the table is a dictionary. */
  lemma KeysDistinct()
    ensures |CatalogNameMapping| == 28
    ensures forall i, j :: 0 <= i < j < |CatalogNameMapping| ==> CatalogNameMapping[i].0 != CatalogNameMapping[j].0
  {
  }

  /** No two keys map to the same value: the mapping is injective. */
  lemma ValuesDistinct()
    ensures forall i, j :: 0 <= i < j < |CatalogNameMapping| ==> CatalogNameMapping[i].1 != CatalogNameMapping[j].1
  {
  }

  predicate EndsWith(s: string, suffix: string) {
    |s| >= |suffix| && s[|s| - |suffix|..] == suffix
  }

  /** Exactly the entries in `IdentityEntries` map a name to itself. */
  lemma IdentityEntriesExact()
    ensures forall i :: 0 <= i < |CatalogNameMapping| ==> (CatalogNameMapping[i].0 == CatalogNameMapping[i].1 <==> i in IdentityEntries)
  {
  }
  lemma KeysArePdf0()
    ensures forall i :: 0 <= i < 7 ==> EndsWith(CatalogNameMapping[i].0, ".pdf")
  {
  }

  lemma KeysArePdf7()
    ensures forall i :: 7 <= i < 14 ==> EndsWith(CatalogNameMapping[i].0, ".pdf")
  {
  }

  lemma KeysArePdf14()
    ensures forall i :: 14 <= i < 21 ==> EndsWith(CatalogNameMapping[i].0, ".pdf")
  {
  }

  lemma KeysArePdf21()
    ensures forall i :: 21 <= i < 28 ==> EndsWith(CatalogNameMapping[i].0, ".pdf")
  {
  }

  /** Every key of the table is a `.pdf` file name. */
  lemma KeysArePdf()
    ensures forall i :: 0 <= i < |CatalogNameMapping| ==> EndsWith(CatalogNameMapping[i].0, ".pdf")
  {
    KeysArePdf0();
    KeysArePdf7();
    KeysArePdf14();
    KeysArePdf21();
  }

  lemma ValuesArePdf0()
    ensures forall i :: 0 <= i < 7 ==> EndsWith(CatalogNameMapping[i].1, ".pdf")
  {
  }

  lemma ValuesArePdf7()
    ensures forall i :: 7 <= i < 14 ==> EndsWith(CatalogNameMapping[i].1, ".pdf")
  {
  }

  lemma ValuesArePdf14()
    ensures forall i :: 14 <= i < 21 ==> EndsWith(CatalogNameMapping[i].1, ".pdf")
  {
  }

  lemma ValuesArePdf21()
    ensures forall i :: 21 <= i < 28 ==> EndsWith(CatalogNameMapping[i].1, ".pdf")
  {
  }

  /** Every value of the table is a `.pdf` file name. */
  lemma ValuesArePdf()
    ensures forall i :: 0 <= i < |CatalogNameMapping| ==> EndsWith(CatalogNameMapping[i].1, ".pdf")
  {
    ValuesArePdf0();
    ValuesArePdf7();
    ValuesArePdf14();
    ValuesArePdf21();
  }

  lemma ValuesWithoutSpaces0()
    ensures forall i :: 0 <= i < 4 ==> NoSpace(CatalogNameMapping[i].1)
  {
  }

  lemma ValuesWithoutSpaces4()
    ensures forall i :: 4 <= i < 8 ==> NoSpace(CatalogNameMapping[i].1)
  {
  }

  lemma ValuesWithoutSpaces8()
    ensures forall i :: 8 <= i < 12 ==> NoSpace(CatalogNameMapping[i].1)
  {
  }

  lemma ValuesWithoutSpaces12()
    ensures forall i :: 12 <= i < 16 ==> NoSpace(CatalogNameMapping[i].1)
  {
  }

  lemma ValuesWithoutSpaces16()
    ensures forall i :: 16 <= i < 20 ==> NoSpace(CatalogNameMapping[i].1)
  {
  }

  lemma ValuesWithoutSpaces20()
    ensures forall i :: 20 <= i < 24 ==> NoSpace(CatalogNameMapping[i].1)
  {
  }

  lemma ValuesWithoutSpaces24()
    ensures forall i :: 24 <= i < 28 ==> NoSpace(CatalogNameMapping[i].1)
  {
  }

  /** No value of the table contains a space. */
  lemma ValuesWithoutSpaces()
    ensures forall i :: 0 <= i < |CatalogNameMapping| ==> NoSpace(CatalogNameMapping[i].1)
  {
    ValuesWithoutSpaces0();
    ValuesWithoutSpaces4();
    ValuesWithoutSpaces8();
    ValuesWithoutSpaces12();
    ValuesWithoutSpaces16();
    ValuesWithoutSpaces20();
    ValuesWithoutSpaces24();
  }

  /** The FTP settings that `validate_config` looks at; `None` is an unset variable. */
  datatype FtpSettings = FtpSettings(host: Option<string>, user: Option<string>, password: Option<string>)

  /** Python's truth value of an optional string: set and not empty. */
  predicate Configured(v: Option<string>) {
    v.Some? && v.value != ""
  }

  const HostMissing := "FTP_HOST no está configurado"
  const UserMissing := "FTP_USER no está configurado"
  const PasswordMissing := "FTP_PASSWORD no está configurado"

  /** Where a message stands in the order host, user, password. */
  function MessageRank(m: string): nat {
    if m == HostMissing then 0 else if m == UserMissing then 1 else 2
  }

  /** `validate_config`: one message per missing setting, in the order host,
      user, password; the configuration is valid when there is none. The
      messages, which the source prints, are returned. */
  method ValidateConfig(settings: FtpSettings) returns (valid: bool, errors: seq<string>)
    ensures valid <==> Configured(settings.host) && Configured(settings.user) && Configured(settings.password)
    ensures valid <==> errors == []
    ensures HostMissing in errors <==> !Configured(settings.host)
    ensures UserMissing in errors <==> !Configured(settings.user)
    ensures PasswordMissing in errors <==> !Configured(settings.password)
    ensures forall i, j :: 0 <= i < j < |errors| ==> MessageRank(errors[i]) < MessageRank(errors[j])
    ensures forall m :: m in errors ==> m in [HostMissing, UserMissing, PasswordMissing]
  {
    errors := [];
    if !Configured(settings.host) {
      errors := errors + [HostMissing];
    }
    if !Configured(settings.user) {
      errors := errors + [UserMissing];
    }
    if !Configured(settings.password) {
      errors := errors + [PasswordMissing];
    }
    valid := |errors| == 0;
  }
}
