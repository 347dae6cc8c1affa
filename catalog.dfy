/** The fixed catalog of 50 tasks of a mining-plant construction project,
    eight phases in order. */
module TaskCatalog {
  import opened ScheduleTypes
  import opened Network

  /** The tasks of one phase, from (name, duration in days, base cost in USD)
      rows. */
  function Block(p: Phase, rows: seq<(string, int, int)>): (b: seq<CatalogEntry>)
    ensures |b| == |rows|
    ensures forall i :: 0 <= i < |b| ==> b[i] == CatalogEntry(p, rows[i].0, rows[i].1, rows[i].2)
  {
    seq(|rows|, i requires 0 <= i < |rows| => CatalogEntry(p, rows[i].0, rows[i].1, rows[i].2))
  }

  const SitePreparationTasks: seq<CatalogEntry> := Block(SitePreparation, [
    ("Topografía y replanteo", 5, 15000),
    ("Limpieza y desbroce", 8, 25000),
    ("Construcción de accesos temporales", 12, 45000),
    ("Instalación de servicios temporales", 6, 20000),
    ("Cercado perimetral", 4, 12000),
    ("Señalización y seguridad", 3, 8000)])

  const EarthworksTasks: seq<CatalogEntry> := Block(Earthworks, [
    ("Excavación general", 15, 120000),
    ("Excavación para cimentaciones", 10, 75000),
    ("Nivelación y compactación", 8, 40000),
    ("Sistema de drenaje temporal", 6, 30000),
    ("Estabilización de taludes", 12, 85000),
    ("Control de erosión", 5, 18000),
    ("Vías de acceso internas", 14, 95000),
    ("Plataformas de equipos", 7, 35000)])

  const FoundationsTasks: seq<CatalogEntry> := Block(Foundations, [
    ("Armado de cimentaciones principales", 12, 180000),
    ("Vaciado de concreto cimentaciones", 8, 220000),
    ("Curado y fraguado", 14, 15000),
    ("Cimentaciones para equipos", 10, 95000),
    ("Anclajes especiales", 6, 45000),
    ("Impermeabilización", 4, 25000)])

  const MainStructuresTasks: seq<CatalogEntry> := Block(MainStructures, [
    ("Montaje estructura metálica principal", 18, 450000),
    ("Estructura de tolvas", 12, 280000),
    ("Pasarelas y plataformas", 10, 125000),
    ("Sistema de soportes", 8, 85000),
    ("Techumbres y cubiertas", 14, 165000),
    ("Cerramientos laterales", 9, 95000),
    ("Estructuras auxiliares", 7, 55000),
    ("Acabados estructurales", 5, 35000)])

  const MechanicalTasks: seq<CatalogEntry> := Block(MechanicalInstallations, [
    ("Montaje de equipos principales", 20, 850000),
    ("Sistema de transporte de material", 15, 320000),
    ("Tuberías y ductos", 12, 180000),
    ("Sistemas de ventilación", 8, 95000),
    ("Sistema hidráulico", 10, 145000),
    ("Equipos de seguridad mecánica", 6, 75000),
    ("Alineación y calibración", 8, 55000),
    ("Pruebas mecánicas iniciales", 5, 25000)])

  const ElectricalTasks: seq<CatalogEntry> := Block(ElectricalInstallations, [
    ("Tableros eléctricos principales", 8, 125000),
    ("Cableado y canalizaciones", 12, 185000),
    ("Motores y controles", 10, 245000),
    ("Sistema de iluminación", 6, 45000),
    ("Sistema de respaldo", 7, 95000),
    ("Pruebas eléctricas", 4, 18000)])

  const FinishingTasks: seq<CatalogEntry> := Block(FinishingAndTesting, [
    ("Sistemas de control y automatización", 15, 385000),
    ("Integración de sistemas", 10, 125000),
    ("Pruebas integrales", 12, 85000),
    ("Corrección de observaciones", 8, 45000)])

  const CommissioningTasks: seq<CatalogEntry> := Block(Commissioning, [
    ("Capacitación de operadores", 10, 55000),
    ("Puesta en marcha asistida", 14, 95000),
    ("Pruebas de rendimiento", 7, 35000),
    ("Entrega final", 3, 15000)])

  /** The catalog, phase by phase; task ids are positions plus one. */
  const Catalog: seq<CatalogEntry> :=
    SitePreparationTasks + EarthworksTasks + FoundationsTasks + MainStructuresTasks
    + MechanicalTasks + ElectricalTasks + FinishingTasks + CommissioningTasks

  /** Every entry of `b` belongs to phase `p`, names a task other than the
      final one unless `p` is the last phase, lasts at least a day and costs
      nothing negative. */
  ghost predicate WellFormedBlock(b: seq<CatalogEntry>, p: Phase)
  {
    forall i :: 0 <= i < |b| ==>
      && b[i].phase == p
      && (b[i].name == FinalTaskName ==> p == Commissioning)
      && b[i].duration >= 1 && b[i].cost >= 0
  }

  /** Appending a block of a later (or the same) phase keeps a catalog well formed. */
  lemma AppendBlock(a: seq<CatalogEntry>, b: seq<CatalogEntry>, p: Phase)
    requires WellFormedCatalog(a)
    requires forall i :: 0 <= i < |a| ==> PhaseIndex(a[i].phase) <= PhaseIndex(p)
    requires WellFormedBlock(b, p)
    ensures WellFormedCatalog(a + b)
    ensures forall i :: 0 <= i < |a + b| ==> PhaseIndex((a + b)[i].phase) <= PhaseIndex(p)
  {
    var c := a + b;
    forall x, y | 0 <= x < y < |c| ensures PhaseIndex(c[x].phase) <= PhaseIndex(c[y].phase) {
      if y >= |a| {
        assert c[y] == b[y - |a|];
        if x >= |a| {
          assert c[x] == b[x - |a|];
        }
      }
    }
  }

  lemma SitePreparationTasksWellFormed()
    ensures WellFormedBlock(SitePreparationTasks, SitePreparation)
  {
    forall i | 0 <= i < |SitePreparationTasks| ensures |SitePreparationTasks[i].name| != |FinalTaskName| || SitePreparation == Commissioning {
    }
  }

  lemma EarthworksTasksWellFormed()
    ensures WellFormedBlock(EarthworksTasks, Earthworks)
  {
    forall i | 0 <= i < |EarthworksTasks| ensures |EarthworksTasks[i].name| != |FinalTaskName| || Earthworks == Commissioning {
    }
  }

  lemma FoundationsTasksWellFormed()
    ensures WellFormedBlock(FoundationsTasks, Foundations)
  {
    forall i | 0 <= i < |FoundationsTasks| ensures |FoundationsTasks[i].name| != |FinalTaskName| || Foundations == Commissioning {
    }
  }

  lemma MainStructuresTasksWellFormed()
    ensures WellFormedBlock(MainStructuresTasks, MainStructures)
  {
    forall i | 0 <= i < |MainStructuresTasks| ensures |MainStructuresTasks[i].name| != |FinalTaskName| || MainStructures == Commissioning {
    }
  }

  lemma MechanicalTasksWellFormed()
    ensures WellFormedBlock(MechanicalTasks, MechanicalInstallations)
  {
    forall i | 0 <= i < |MechanicalTasks| ensures |MechanicalTasks[i].name| != |FinalTaskName| || MechanicalInstallations == Commissioning {
    }
  }

  lemma ElectricalTasksWellFormed()
    ensures WellFormedBlock(ElectricalTasks, ElectricalInstallations)
  {
    forall i | 0 <= i < |ElectricalTasks| ensures |ElectricalTasks[i].name| != |FinalTaskName| || ElectricalInstallations == Commissioning {
    }
  }

  lemma FinishingTasksWellFormed()
    ensures WellFormedBlock(FinishingTasks, FinishingAndTesting)
  {
    forall i | 0 <= i < |FinishingTasks| ensures |FinishingTasks[i].name| != |FinalTaskName| || FinishingAndTesting == Commissioning {
    }
  }

  lemma CommissioningTasksWellFormed()
    ensures WellFormedBlock(CommissioningTasks, Commissioning)
  {
    forall i | 0 <= i < |CommissioningTasks| ensures |CommissioningTasks[i].name| != |FinalTaskName| || Commissioning == Commissioning {
    }
  }

  /** The catalog is grouped by phase in phase order, only the last phase
      holds "Entrega final", every duration is positive and every cost
      non-negative. */
  lemma CatalogWellFormed()
    ensures WellFormedCatalog(Catalog)
    ensures |Catalog| == 50
    ensures Catalog[49].name == FinalTaskName && Catalog[49].phase == Commissioning
    ensures Catalog[45].phase == FinishingAndTesting && Catalog[46].phase == Commissioning
  {
    SitePreparationTasksWellFormed();
    EarthworksTasksWellFormed();
    FoundationsTasksWellFormed();
    MainStructuresTasksWellFormed();
    MechanicalTasksWellFormed();
    ElectricalTasksWellFormed();
    FinishingTasksWellFormed();
    CommissioningTasksWellFormed();
    var c0 := SitePreparationTasks;
    assert WellFormedCatalog(c0);
    AppendBlock(c0, EarthworksTasks, Earthworks);
    var c1 := c0 + EarthworksTasks;
    AppendBlock(c1, FoundationsTasks, Foundations);
    var c2 := c1 + FoundationsTasks;
    AppendBlock(c2, MainStructuresTasks, MainStructures);
    var c3 := c2 + MainStructuresTasks;
    AppendBlock(c3, MechanicalTasks, MechanicalInstallations);
    var c4 := c3 + MechanicalTasks;
    AppendBlock(c4, ElectricalTasks, ElectricalInstallations);
    var c5 := c4 + ElectricalTasks;
    AppendBlock(c5, FinishingTasks, FinishingAndTesting);
    var c6 := c5 + FinishingTasks;
    AppendBlock(c6, CommissioningTasks, Commissioning);
    assert Catalog == c6 + CommissioningTasks;
  }
}
