/** The per-file facts of domain/facts.rs that the analyses below read. */
module Facts {
  import opened Common

  datatype UsageKind = Runtime | Type

  datatype Namespace = RuntimeOnly | TypeOnly | RuntimeAndType

  datatype DeclarationKind =
    | Variable | Function | Class | Import | TypeAlias | Interface | Enum | EnumMember
    | TypeParameter | NamespaceDeclaration | CatchBinding | Unknown

  datatype SymbolFact = SymbolFact(
    id: nat, kind: DeclarationKind, namespace: Namespace, ambient: bool, parameterProperty: bool)

  datatype ReferenceOwner = OwnedByRegion(region: nat) | OwnedBySymbol(symbol: nat)

  datatype ReferenceFact = ReferenceFact(owner: ReferenceOwner, region: nat, target: nat, usage: UsageKind)

  datatype RegionFact = RegionFact(id: nat, parent: Option<nat>, eager: bool)

  const MODULE_REGION: nat := 0

  datatype ImportBindingKind = DefaultImport | NamedImport | NamespaceImport | CommonJsImport

  datatype ImportBinding = ImportBinding(
    source: string, imported: Option<string>, local: nat, kind: ImportBindingKind, typeOnly: bool)

  datatype ExportBindingKind = LocalExport | DefaultExport | ReExport | StarExport | CommonJsExport

  datatype ExportBinding = ExportBinding(
    exported: string, source: Option<string>, imported: Option<string>, local: Option<nat>,
    kind: ExportBindingKind, typeOnly: bool)

  datatype UnknownGuard = DirectEval | DynamicScope | ComputedCommonJsExport | OpaqueCommonJsExports

  datatype Diagnostic = Diagnostic(code: string, blocksReachability: bool)

  datatype FileFacts = FileFacts(
    path: string,
    symbols: seq<SymbolFact>,
    references: seq<ReferenceFact>,
    regions: seq<RegionFact>,
    imports: seq<ImportBinding>,
    exports: seq<ExportBinding>,
    guards: seq<UnknownGuard>,
    diagnostics: seq<Diagnostic>)

  /** A symbol of one file of the program. */
  datatype SymbolKey = SymbolKey(file: nat, symbol: nat)
}
